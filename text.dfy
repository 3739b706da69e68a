/**
 * String primitives of Python's `str` that the digest scripts lean on,
 * written over `seq<char>`: the `isspace` class (also the `\s` of a `str`
 * regex), `strip`/`lstrip`/`rstrip` with and without a character set,
 * `splitlines`, `split()`, `split(sep)`, `join`, `replace`, `find`/`in`,
 * `startswith` and an ASCII-only `lower`.
 *
 * Scanners take the whole string and an index, so that the verifier can
 * evaluate them on string literals.
 */
module Text {

  /** The characters for which Python's `str.isspace()` holds; the same set
      is matched by `\s` in a `str` pattern and removed by `str.strip()`. */
  const Whitespace: set<char> :=
    set c: char |
      if c <= ' ' then c == ' ' || '\t' <= c <= '\r' || '\U{1C}' <= c
      else '\U{85}' <= c && (c == '\U{85}' || c == '\U{A0}' || c == '\U{1680}' ||
        '\U{2000}' <= c <= '\U{200A}' || c == '\U{2028}' || c == '\U{2029}' ||
        c == '\U{202F}' || c == '\U{205F}' || c == '\U{3000}')

  /** The characters at which `str.splitlines()` breaks a line. */
  const LineBreaks: set<char> :=
    set c: char | '\n' <= c <= '\r' || '\U{1C}' <= c <= '\U{1E}' || c == '\U{85}' ||
      c == '\U{2028}' || c == '\U{2029}'

  predicate IsSpace(c: char) { c in Whitespace }

  predicate IsDigit(c: char) { '0' <= c <= '9' }

  predicate IsUpper(c: char) { 'A' <= c <= 'Z' }

  predicate IsLetter(c: char) { 'A' <= c <= 'Z' || 'a' <= c <= 'z' }

  /** `\w`, restricted to ASCII. */
  predicate IsWordChar(c: char) { IsLetter(c) || IsDigit(c) || c == '_' }

  /** `str.lower()` on one character, restricted to ASCII. */
  function LowerChar(c: char): (r: char)
    ensures IsUpper(c) ==> r as int == c as int + 32
    ensures !IsUpper(c) ==> r == c
  {
    if IsUpper(c) then (c as int + 32) as char else c
  }

  function Lower(s: string): (r: string)
    ensures |r| == |s|
    ensures forall i :: 0 <= i < |s| ==> r[i] == LowerChar(s[i])
  {
    seq(|s|, i requires 0 <= i < |s| => LowerChar(s[i]))
  }

  /** Lower-casing twice changes nothing more. */
  lemma LowerIdempotent(s: string)
    ensures Lower(Lower(s)) == Lower(s)
  {
    assert forall i :: 0 <= i < |s| ==> LowerChar(LowerChar(s[i])) == LowerChar(s[i]);
  }

  /** True when every character of `s` is in `cs`. */
  predicate AllIn(s: string, cs: set<char>)
  {
    forall i :: 0 <= i < |s| ==> s[i] in cs
  }

  // ---------------------------------------------------------------------
  // Scanning

  /** The first index at or after `i` whose character is not in `cs`. */
  function SkipIn(s: string, i: nat, cs: set<char>): (j: nat)
    requires i <= |s|
    ensures i <= j <= |s|
    ensures j == |s| || s[j] !in cs
    ensures forall k :: i <= k < j ==> s[k] in cs
    decreases |s| - i
  {
    if i < |s| && s[i] in cs then SkipIn(s, i + 1, cs) else i
  }

  /** The first index at or after `i` whose character is in `cs`. */
  function SkipOut(s: string, i: nat, cs: set<char>): (j: nat)
    requires i <= |s|
    ensures i <= j <= |s|
    ensures j == |s| || s[j] in cs
    ensures forall k :: i <= k < j ==> s[k] !in cs
    decreases |s| - i
  {
    if i < |s| && s[i] !in cs then SkipOut(s, i + 1, cs) else i
  }

  /** The least index at or below `j` such that `s[k..j]` lies in `cs`. */
  function BackIn(s: string, j: nat, cs: set<char>): (k: nat)
    requires j <= |s|
    ensures k <= j
    ensures k == 0 || s[k - 1] !in cs
    ensures forall m :: k <= m < j ==> s[m] in cs
  {
    if j > 0 && s[j - 1] in cs then BackIn(s, j - 1, cs) else j
  }

  /** `SkipIn` is determined by the run it stops after. */
  lemma SkipInIs(s: string, i: nat, j: nat, cs: set<char>)
    requires i <= j <= |s|
    requires forall k :: i <= k < j ==> s[k] in cs
    requires j == |s| || s[j] !in cs
    ensures SkipIn(s, i, cs) == j
  {
  }

  /** `SkipOut` is determined by the run it stops after. */
  lemma SkipOutIs(s: string, i: nat, j: nat, cs: set<char>)
    requires i <= j <= |s|
    requires forall k :: i <= k < j ==> s[k] !in cs
    requires j == |s| || s[j] in cs
    ensures SkipOut(s, i, cs) == j
  {
  }

  /** `BackIn` is determined by the run it stops before. */
  lemma BackInIs(s: string, j: nat, k: nat, cs: set<char>)
    requires k <= j <= |s|
    requires forall m :: k <= m < j ==> s[m] in cs
    requires k == 0 || s[k - 1] !in cs
    ensures BackIn(s, j, cs) == k
  {
  }

  function SkipSpaces(s: string, i: nat): (j: nat)
    requires i <= |s|
    ensures i <= j <= |s|
  {
    SkipIn(s, i, Whitespace)
  }

  // ---------------------------------------------------------------------
  // strip

  /** `s.lstrip(chars)`. */
  function LStripIn(s: string, cs: set<char>): (r: string)
    ensures r == s[SkipIn(s, 0, cs)..]
  {
    s[SkipIn(s, 0, cs)..]
  }

  /** `s.rstrip(chars)`. */
  function RStripIn(s: string, cs: set<char>): (r: string)
    ensures r == s[..BackIn(s, |s|, cs)]
  {
    s[..BackIn(s, |s|, cs)]
  }

  /** `s.strip(chars)`. */
  function StripIn(s: string, cs: set<char>): (r: string)
  {
    RStripIn(LStripIn(s, cs), cs)
  }

  /** `rstrip` removes exactly a trailing run of characters of `cs`. */
  lemma RStripInSuffix(w: string, p: string, cs: set<char>)
    requires AllIn(p, cs) && (w == [] || w[|w| - 1] !in cs)
    ensures RStripIn(w + p, cs) == w
  {
    var s := w + p;
    assert forall m :: 0 <= m < |w| ==> s[m] == w[m];
    assert forall m :: |w| <= m < |s| ==> s[m] == p[m - |w|];
    assert s[..|w|] == w;
  }

  function LStrip(s: string): string { LStripIn(s, Whitespace) }

  function RStrip(s: string): string { RStripIn(s, Whitespace) }

  /** `s.strip()`. */
  function Strip(s: string): string { StripIn(s, Whitespace) }

  /** A stripped string neither starts nor ends with a character of `cs`. */
  lemma StripInShape(s: string, cs: set<char>)
    ensures var r := StripIn(s, cs);
      (r == [] || (r[0] !in cs && r[|r| - 1] !in cs)) && |r| <= |s|
  {
    var l := LStripIn(s, cs);
    var r := RStripIn(l, cs);
    if r != [] {
      assert r[0] == l[0];
    }
  }

  /** A stripped string is the slice between the leading and the trailing
      run of characters of `cs`. */
  lemma StripInSlice(s: string, cs: set<char>, a: nat, b: nat)
    requires a == SkipIn(s, 0, cs) && b == BackIn(s[a..], |s| - a, cs)
    ensures a + b <= |s| && StripIn(s, cs) == s[a..a + b]
  {
    assert s[a..][..b] == s[a..a + b];
  }

  /** A slice of a slice is a slice. */
  lemma SliceOfSlice<T>(s: seq<T>, lo: nat, hi: nat, a: nat, b: nat)
    requires lo <= hi <= |s| && a <= b <= hi - lo
    ensures s[lo..hi][a..b] == s[lo + a..lo + b]
  {
    var x := s[lo..hi];
    assert forall k :: 0 <= k < b - a ==> x[a..b][k] == x[a + k] == s[lo + a + k];
  }

  /** Stripping a piece of a text leaves a piece of the text. */
  lemma StripInPiece(s: string, lo: nat, hi: nat, cs: set<char>)
    requires lo <= hi <= |s|
    ensures exists a, b :: 0 <= a <= b <= |s| && StripIn(s[lo..hi], cs) == s[a..b]
  {
    var w := s[lo..hi];
    var a := SkipIn(w, 0, cs);
    var b := BackIn(w[a..], |w| - a, cs);
    StripInSlice(w, cs, a, b);
    SliceOfSlice(s, lo, hi, a, a + b);
    assert StripIn(w, cs) == s[lo + a..lo + a + b];
  }

  /** A string that starts with a character outside `Whitespace` keeps
      that character under `strip` and `rstrip`. */
  lemma StripNonBlank(s: string)
    requires |s| > 0 && !IsSpace(s[0])
    ensures Strip(s) != [] && RStrip(s) != []
  {
    assert SkipIn(s, 0, Whitespace) == 0;
    assert BackIn(s, |s|, Whitespace) > 0;
  }

  lemma StripInIdempotent(s: string, cs: set<char>)
    ensures StripIn(StripIn(s, cs), cs) == StripIn(s, cs)
  {
    var r := StripIn(s, cs);
    StripInShape(s, cs);
    StripInOfClean(r, cs);
  }

  /** A string that neither starts nor ends with a character of `cs` is
      its own strip. */
  lemma StripInOfClean(r: string, cs: set<char>)
    requires r == [] || (r[0] !in cs && r[|r| - 1] !in cs)
    ensures StripIn(r, cs) == r
  {
    assert LStripIn(r, cs) == r;
  }

  lemma StripIdempotent(s: string)
    ensures Strip(Strip(s)) == Strip(s)
  {
    StripInIdempotent(s, Whitespace);
  }

  lemma StripShape(s: string)
    ensures var r := Strip(s); r == [] || (!IsSpace(r[0]) && !IsSpace(r[|r| - 1]))
  {
    StripInShape(s, Whitespace);
  }

  // ---------------------------------------------------------------------
  // find, in, startswith

  /** `s[i..]` begins with `p`. */
  predicate At(s: string, i: nat, p: string)
  {
    i + |p| <= |s| && s[i..i + |p|] == p
  }

  predicate StartsWith(s: string, p: string) { At(s, 0, p) }

  predicate EndsWith(s: string, p: string)
  {
    |p| <= |s| && s[|s| - |p|..] == p
  }

  /** `s.find(p, i)`: the first index at or after `i` where `p` occurs, or
      `|s| + 1` when there is none. */
  function Find(s: string, p: string, i: nat): (j: nat)
    requires i <= |s| + 1
    ensures i <= j <= |s| + 1
    ensures j <= |s| ==> At(s, j, p)
    ensures forall k :: i <= k < j && k <= |s| ==> !At(s, k, p)
    decreases |s| + 1 - i
  {
    if i > |s| then i
    else if At(s, i, p) then i
    else Find(s, p, i + 1)
  }

  /** The first occurrence from `i` on is found. */
  lemma {:induction false} FindIs(s: string, p: string, i: nat, j: nat)
    requires i <= j && At(s, j, p)
    requires forall k :: i <= k < j ==> !At(s, k, p)
    ensures Find(s, p, i) == j
    decreases j - i
  {
    if i < j {
      FindIs(s, p, i + 1, j);
    }
  }

  /** No occurrence from `i` on: `find` reports none. */
  lemma {:induction false} FindNone(s: string, p: string, i: nat)
    requires i <= |s| + 1
    requires forall k :: i <= k <= |s| ==> !At(s, k, p)
    ensures Find(s, p, i) == |s| + 1
    decreases |s| + 1 - i
  {
    if i <= |s| {
      FindNone(s, p, i + 1);
    }
  }

  /** `p` does not start where the text differs from its first character. */
  lemma NotAtChar(s: string, p: string, k: nat)
    requires |p| > 0 && k < |s| && s[k] != p[0]
    ensures !At(s, k, p)
  {
    if k + |p| <= |s| {
      assert s[k..k + |p|][0] == s[k];
    }
  }

  /** `p in s`. */
  predicate Contains(s: string, p: string)
  {
    exists k :: 0 <= k <= |s| && At(s, k, p)
  }

  lemma FindContains(s: string, p: string)
    ensures Find(s, p, 0) <= |s| <==> Contains(s, p)
  {
  }

  // ---------------------------------------------------------------------
  // replace

  /** `s[i..].replace(k, v)`: non-overlapping occurrences, left to right. */
  function ReplaceFrom(s: string, k: string, v: string, i: nat): string
    requires |k| > 0 && i <= |s|
    decreases |s| - i
  {
    if i + |k| > |s| then s[i..]
    else if s[i..i + |k|] == k then v + ReplaceFrom(s, k, v, i + |k|)
    else [s[i]] + ReplaceFrom(s, k, v, i + 1)
  }

  /** `s.replace(k, v)`. */
  function Replace(s: string, k: string, v: string): string
    requires |k| > 0
  {
    ReplaceFrom(s, k, v, 0)
  }

  /** A prefix one element longer. */
  lemma TakeSnoc<T>(s: seq<T>, i: int)
    requires 0 <= i < |s|
    ensures s[..i + 1] == s[..i] + [s[i]] && s[..i + 1][..i] == s[..i]
  {
  }

  /** A string that is exactly the key becomes the value. */
  lemma ReplaceWhole(k: string, v: string)
    requires |k| > 0
    ensures Replace(k, k, v) == v
  {
    assert k[0..|k|] == k;
    assert ReplaceFrom(k, k, v, |k|) == [];
  }

  /** Where `k` does not occur, replacing it changes nothing. */
  lemma {:induction false} ReplaceAbsent(s: string, k: string, v: string, i: nat)
    requires |k| > 0 && i <= |s|
    requires forall j :: i <= j <= |s| ==> !At(s, j, k)
    ensures ReplaceFrom(s, k, v, i) == s[i..]
    decreases |s| - i
  {
    if i + |k| <= |s| {
      assert !At(s, i, k);
      ReplaceAbsent(s, k, v, i + 1);
    }
  }

  /** A character that is in neither `s` nor `v` is not in `s.replace(k, v)`. */
  lemma {:induction false} ReplaceKeepsOut(s: string, k: string, v: string, i: nat, c: char)
    requires |k| > 0 && i <= |s|
    requires c !in s[i..] && c !in v
    ensures c !in ReplaceFrom(s, k, v, i)
    decreases |s| - i
  {
    if i + |k| > |s| {
    } else if s[i..i + |k|] == k {
      assert c !in s[i + |k|..] by { assert s[i + |k|..] == s[i..][|k|..]; }
      ReplaceKeepsOut(s, k, v, i + |k|, c);
    } else {
      assert c !in s[i + 1..] by { assert s[i + 1..] == s[i..][1..]; }
      ReplaceKeepsOut(s, k, v, i + 1, c);
    }
  }

  // ---------------------------------------------------------------------
  // join and split

  /** `sep.join(xs)`. */
  function Join(sep: string, xs: seq<string>): string
  {
    if xs == [] then []
    else if |xs| == 1 then xs[0]
    else xs[0] + sep + Join(sep, xs[1..])
  }

  /** `"".join(xs)`. */
  function Concat(xs: seq<string>): string
  {
    if xs == [] then [] else xs[0] + Concat(xs[1..])
  }

  lemma {:induction false} ConcatAppend(xs: seq<string>, ys: seq<string>)
    ensures Concat(xs + ys) == Concat(xs) + Concat(ys)
  {
    if xs != [] {
      assert (xs + ys)[0] == xs[0];
      assert (xs + ys)[1..] == xs[1..] + ys;
      ConcatAppend(xs[1..], ys);
      assert Concat(xs + ys) == xs[0] + Concat(xs[1..] + ys);
    } else {
      assert xs + ys == ys;
    }
  }

  /** `s[i..].split(sep)` for a non-empty separator. */
  function SplitFrom(s: string, sep: string, i: nat): (r: seq<string>)
    requires |sep| > 0 && i <= |s|
    ensures |r| >= 1
    decreases |s| - i
  {
    var j := Find(s, sep, i);
    if j > |s| then [s[i..]]
    else [s[i..j]] + SplitFrom(s, sep, j + |sep|)
  }

  /** `s.split(sep)` for a non-empty separator. */
  function Split(s: string, sep: string): (r: seq<string>)
    requires |sep| > 0
  {
    SplitFrom(s, sep, 0)
  }

  /** Joining the pieces of a split with the separator gives back the text. */
  lemma {:induction false} JoinSplitFrom(s: string, sep: string, i: nat)
    requires |sep| > 0 && i <= |s|
    ensures Join(sep, SplitFrom(s, sep, i)) == s[i..]
    decreases |s| - i
  {
    var j := Find(s, sep, i);
    if j <= |s| {
      var rest := SplitFrom(s, sep, j + |sep|);
      JoinSplitFrom(s, sep, j + |sep|);
      assert SplitFrom(s, sep, i) == [s[i..j]] + rest;
      JoinCons(sep, s[i..j], rest);
      SplitAround(s, sep, i, j);
    }
  }

  /** Joining a head onto a non-empty list puts the separator between. */
  lemma JoinCons(sep: string, x: string, rest: seq<string>)
    requires rest != []
    ensures Join(sep, [x] + rest) == x + sep + Join(sep, rest)
  {
    assert ([x] + rest)[1..] == rest;
  }

  /** A text splits around an occurrence of the separator. */
  lemma SplitAround(s: string, sep: string, i: nat, j: nat)
    requires i <= j && At(s, j, sep)
    ensures s[i..] == s[i..j] + sep + s[j + |sep|..]
  {
  }

  lemma JoinSplit(s: string, sep: string)
    requires |sep| > 0
    ensures Join(sep, Split(s, sep)) == s
  {
    JoinSplitFrom(s, sep, 0);
  }

  /** `s.split(sep, 1)`: the text before the first separator, and the rest
      when there is a separator. */
  function SplitOnce(s: string, sep: string): (r: seq<string>)
    requires |sep| > 0
    ensures 1 <= |r| <= 2
  {
    var j := Find(s, sep, 0);
    if j > |s| then [s] else [s[..j], s[j + |sep|..]]
  }

  // ---------------------------------------------------------------------
  // splitlines

  /** The pieces of `s[i..].splitlines()`. A `\r\n` pair is one break. */
  function SplitLinesFrom(s: string, i: nat): (r: seq<string>)
    requires i <= |s|
    ensures forall k :: 0 <= k < |r| ==> forall m :: 0 <= m < |r[k]| ==> r[k][m] !in LineBreaks
    decreases |s| - i
  {
    if i == |s| then []
    else
      var j := SkipOut(s, i, LineBreaks);
      if j == |s| then [s[i..]]
      else
        var next := if s[j] == '\r' && j + 1 < |s| && s[j + 1] == '\n' then j + 2 else j + 1;
        [s[i..j]] + SplitLinesFrom(s, next)
  }

  /** `s.splitlines()`: no piece holds a line break. */
  function SplitLines(s: string): (r: seq<string>)
    ensures forall k :: 0 <= k < |r| ==> forall m :: 0 <= m < |r[k]| ==> r[k][m] !in LineBreaks
  {
    SplitLinesFrom(s, 0)
  }

  /** Text without any line break is one line (or none, when empty). */
  lemma SplitLinesOneLine(s: string)
    requires forall m :: 0 <= m < |s| ==> s[m] !in LineBreaks
    ensures SplitLines(s) == if s == [] then [] else [s]
  {
  }

  // ---------------------------------------------------------------------
  // split()

  /** The words of `s[i..]` as `str.split()` with no argument gives them. */
  function WordsFrom(s: string, i: nat): (r: seq<string>)
    requires i <= |s|
    ensures forall k :: 0 <= k < |r| ==> r[k] != [] && forall m :: 0 <= m < |r[k]| ==> !IsSpace(r[k][m])
    decreases |s| - i
  {
    var a := SkipIn(s, i, Whitespace);
    if a == |s| then []
    else
      var b := SkipOut(s, a, Whitespace);
      [s[a..b]] + WordsFrom(s, b)
  }

  /** `s.split()`: the maximal runs of non-whitespace, in order. */
  function Words(s: string): seq<string>
  {
    WordsFrom(s, 0)
  }

  /** A word without whitespace, followed by nothing or by whitespace, is the
      first word of the text. */
  lemma FirstWordOf(w: string, rest: string)
    requires w != [] && forall m :: 0 <= m < |w| ==> !IsSpace(w[m])
    requires rest == [] || IsSpace(rest[0])
    ensures Words(w + rest) != [] && Words(w + rest)[0] == w
  {
    var s := w + rest;
    assert SkipIn(s, 0, Whitespace) == 0;
    var b := SkipOut(s, 0, Whitespace);
    assert forall m :: 0 <= m < |w| ==> s[m] == w[m];
    assert |w| < |s| ==> s[|w|] == rest[0];
    assert s[0..b] == w;
  }

  /** A function that does not change from one index to the next has the
      same value all along the run. */
  lemma {:induction false} ConstantRun<T>(f: nat -> T, i: nat, k: nat)
    requires i <= k && forall m :: i <= m < k ==> f(m) == f(m + 1)
    ensures f(i) == f(k)
    decreases k - i
  {
    if i < k {
      ConstantRun(f, i + 1, k);
    }
  }

  // ---------------------------------------------------------------------
  // Regrouping concatenations

  /** Concatenation regrouped to the left. */
  lemma Regroup<T>(a: seq<T>, b: seq<T>, c: seq<T>, whole: seq<T>)
    requires a + (b + c) == whole
    ensures (a + b) + c == whole
  {
  }

  /** Concatenation regrouped to the right. */
  lemma Ungroup<T>(a: seq<T>, b: seq<T>, c: seq<T>, whole: seq<T>)
    requires whole == (a + b) + c
    ensures whole == a + (b + c)
  {
  }

  /** Four pieces regrouped around the first. */
  lemma Regroup3<T>(a: seq<T>, b: seq<T>, c: seq<T>, d: seq<T>, whole: seq<T>)
    requires whole == ((a + b) + c) + d
    ensures whole == a + ((b + c) + d)
  {
  }
}
