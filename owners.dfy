/** `extract_name`: the owner of an action item, found by three patterns
    tried in turn and a capitalised-words fallback. The two scripts define
    the same function. Character classes are ASCII. */
module OwnerNames {
  import opened Wrappers
  import opened Text

  /** `[\w.\- ]`: the characters after the capital in a bracket name. */
  predicate InNameClass(c: char) { IsWordChar(c) || c == '.' || c == '-' || c == ' ' }

  /** `[a-zA-Z.\-]`: the characters after the capital of a capitalised word. */
  const WordTail: set<char> := set c: char | 'A' <= c <= 'Z' || 'a' <= c <= 'z' || c == '.' || c == '-'

  /** The dashes of `[—–-]`. */
  const Dashes: set<char> := {'\U{2014}', '\U{2013}', '-'}

  /** `\s+to\b` at `p`. `\s+` cannot give back whitespace, since `t` is not
      whitespace, so it runs to the end of the blanks. */
  predicate ToTail(t: string, p: nat)
    requires p <= |t|
  {
    p < |t| && IsSpace(t[p]) &&
    var q := SkipIn(t, p, Whitespace);
    q + 2 <= |t| && t[q] == 't' && t[q + 1] == 'o' && (q + 2 == |t| || !IsWordChar(t[q + 2]))
  }

  /** `\s+[—–-]\s+` at `p`. */
  predicate DashTail(t: string, p: nat)
    requires p <= |t|
  {
    p < |t| && IsSpace(t[p]) &&
    var q := SkipIn(t, p, Whitespace);
    q + 1 < |t| && t[q] in Dashes && IsSpace(t[q + 1])
  }

  /** The tail of the first pattern (`to`) or of the second (a dash). */
  predicate Tail(t: string, p: nat, dash: bool)
    requires p <= |t|
  {
    if dash then DashTail(t, p) else ToTail(t, p)
  }

  /** The lazy `{1,40}?` after the capital at `j`: trying `n` class
      characters, then `n + 1`, up to 40, the end of the first group after
      which the tail matches. */
  function LazyEnd(t: string, j: nat, n: nat, dash: bool): (r: Option<nat>)
    requires j < |t| && 1 <= n
    ensures r.Some? ==> j + n + 1 <= r.value <= j + 41 && r.value <= |t| && Tail(t, r.value, dash)
    decreases 41 - n
  {
    if n > 40 || j + n >= |t| || !InNameClass(t[j + n]) then None
    else if Tail(t, j + n + 1, dash) then Some(j + n + 1)
    else LazyEnd(t, j, n + 1, dash)
  }

  /** The first or second pattern tried at `i`: a `]`, blanks, a capital
      and the lazy group; the group's bounds. */
  function BracketAt(t: string, i: nat, dash: bool): (r: Option<(nat, nat)>)
    requires i < |t|
    ensures r.Some? ==> t[i] == ']' && i < r.value.0 < r.value.1 <= |t| && IsUpper(t[r.value.0])
  {
    if t[i] != ']' then None
    else
      var j := SkipIn(t, i + 1, Whitespace);
      if j < |t| && IsUpper(t[j]) then
        match LazyEnd(t, j, 1, dash)
        case None => None
        case Some(e) => Some((j, e))
      else None
  }

  /** `rx.search(t)` for the first or second pattern, from `i`. */
  function SearchBracket(t: string, i: nat, dash: bool): (r: Option<(nat, nat)>)
    requires i <= |t|
    ensures r.Some? ==> i < r.value.0 < r.value.1 <= |t|
    decreases |t| - i
  {
    if i == |t| then None
    else if BracketAt(t, i, dash).Some? then BracketAt(t, i, dash)
    else SearchBracket(t, i + 1, dash)
  }

  /** `\(owner:\s*([^)]+?)\)` (case-insensitive) tried at `i`. The lazy
      group runs to the first `)`; when a `)` follows the blanks at once,
      `\s*` gives back one blank and the group is that blank. */
  function OwnerAt(t: string, i: nat): (r: Option<(nat, nat)>)
    requires i <= |t|
    ensures r.Some? ==> i + 7 <= r.value.0 < r.value.1 < |t| && t[r.value.1] == ')'
    ensures r.Some? ==> forall k :: r.value.0 <= k < r.value.1 ==> t[k] != ')'
  {
    if i + 7 <= |t| && Lower(t[i..i + 7]) == "(owner:" then
      var j := SkipIn(t, i + 7, Whitespace);
      if j < |t| && t[j] != ')' then
        var c := SkipOut(t, j + 1, {')'});
        if c < |t| then Some((j, c)) else None
      else if j < |t| && i + 7 < j then Some((j - 1, j))
      else None
    else None
  }

  /** `re.search` of the third pattern, from `i`. */
  function SearchOwner(t: string, i: nat): (r: Option<(nat, nat)>)
    requires i <= |t|
    ensures r.Some? ==> i <= r.value.0 < r.value.1 <= |t|
    decreases |t| - i
  {
    if i == |t| then None
    else if OwnerAt(t, i).Some? then OwnerAt(t, i)
    else SearchOwner(t, i + 1)
  }

  /** `\b` at `f`: a word character on exactly one side. */
  predicate Boundary(t: string, f: nat)
    requires f <= |t|
  {
    (f > 0 && IsWordChar(t[f - 1])) != (f < |t| && IsWordChar(t[f]))
  }

  /** The greedy `+` giving back one character at a time until `\b`
      holds: the largest `f` in `lo..hi` with a boundary. */
  function LastBoundary(t: string, lo: nat, hi: nat): (r: Option<nat>)
    requires hi <= |t|
    ensures r.Some? ==> lo <= r.value <= hi && Boundary(t, r.value)
    ensures r.Some? ==> forall f :: r.value < f <= hi ==> !Boundary(t, f)
    ensures r.None? ==> forall f :: lo <= f <= hi ==> !Boundary(t, f)
    decreases hi
  {
    if hi < lo then None
    else if Boundary(t, hi) then Some(hi)
    else if hi == lo then None
    else LastBoundary(t, lo, hi - 1)
  }

  /** `(?:\s+[A-Z][a-zA-Z.\-]+)?\b` after a first word ending at `e`: the
      end of the second word when the optional group matches. */
  function SecondWord(t: string, e: nat): (r: Option<nat>)
    requires e <= |t|
    ensures r.Some? ==> e < r.value <= |t| && Boundary(t, r.value)
  {
    var w := SkipIn(t, e, Whitespace);
    if w == e || w == |t| || !IsUpper(t[w]) then None
    else LastBoundary(t, w + 2, SkipIn(t, w + 1, WordTail))
  }

  /** `\b([A-Z][a-zA-Z.\-]+(?:\s+[A-Z][a-zA-Z.\-]+)?)\b` tried at `i`. The
      optional group is tried first, and only at the greedy end of the
      first word, since any shorter first word is followed by a letter,
      a dot or a hyphen rather than whitespace. */
  function CapitalisedAt(t: string, i: nat): (r: Option<(nat, nat)>)
    requires i < |t|
    ensures r.Some? ==> r.value.0 == i && i + 2 <= r.value.1 <= |t| && IsUpper(t[i])
    ensures r.Some? ==> Boundary(t, i) && Boundary(t, r.value.1)
  {
    if !Boundary(t, i) || !IsUpper(t[i]) then None
    else
      var e1 := SkipIn(t, i + 1, WordTail);
      if e1 < i + 2 then None
      else match SecondWord(t, e1)
        case Some(f) => Some((i, f))
        case None =>
          match LastBoundary(t, i + 2, e1)
          case Some(e) => Some((i, e))
          case None => None
  }

  /** `re.search` of the fallback pattern, from `i`. */
  function SearchCapitalised(t: string, i: nat): (r: Option<(nat, nat)>)
    requires i <= |t|
    ensures r.Some? ==> i <= r.value.0 && r.value.0 + 2 <= r.value.1 <= |t| && IsUpper(t[r.value.0])
    decreases |t| - i
  {
    if i == |t| then None
    else if CapitalisedAt(t, i).Some? then CapitalisedAt(t, i)
    else SearchCapitalised(t, i + 1)
  }

  /** `extract_name`: the first pattern that matches, its group stripped;
      else the capitalised words; else the empty string. */
  function ExtractName(text: string): string
  {
    match SearchBracket(text, 0, false)
    case Some(g) => Strip(text[g.0..g.1])
    case None =>
      match SearchBracket(text, 0, true)
      case Some(g) => Strip(text[g.0..g.1])
      case None =>
        match SearchOwner(text, 0)
        case Some(g) => Strip(text[g.0..g.1])
        case None =>
          match SearchCapitalised(text, 0)
          case Some(g) => text[g.0..g.1]
          case None => ""
  }

  // ---------------------------------------------------------------------
  // What the search finds

  /** The group the lazy search settles on holds only class characters. */
  lemma {:induction false} LazyEndClass(t: string, j: nat, n: nat, dash: bool)
    requires j < |t| && 1 <= n
    ensures LazyEnd(t, j, n, dash).Some? ==>
      forall k :: j + n <= k < LazyEnd(t, j, n, dash).value ==> InNameClass(t[k])
    decreases 41 - n
  {
    if n <= 40 && j + n < |t| && InNameClass(t[j + n]) && !Tail(t, j + n + 1, dash) {
      assert LazyEnd(t, j, n, dash) == LazyEnd(t, j, n + 1, dash);
      LazyEndClass(t, j, n + 1, dash);
    }
  }

  /** The lazy search settles on the first end at which the tail matches. */
  lemma {:induction false} LazyEndEarliest(t: string, j: nat, n: nat, dash: bool)
    requires j < |t| && 1 <= n
    ensures LazyEnd(t, j, n, dash).Some? ==>
      forall p :: j + n + 1 <= p < LazyEnd(t, j, n, dash).value ==> !Tail(t, p, dash)
    decreases 41 - n
  {
    if n <= 40 && j + n < |t| && InNameClass(t[j + n]) && !Tail(t, j + n + 1, dash) {
      var r := LazyEnd(t, j, n + 1, dash);
      assert LazyEnd(t, j, n, dash) == r;
      LazyEndEarliest(t, j, n + 1, dash);
      if r.Some? {
        NoTailExtend(t, j + n + 1, r.value, dash);
      }
    }
  }

  /** A run of places where the tail does not match, grown by one. */
  lemma NoTailExtend(t: string, a: nat, b: nat, dash: bool)
    requires a < b <= |t| && !Tail(t, a, dash)
    requires forall p :: a + 1 <= p < b ==> !Tail(t, p, dash)
    ensures forall p :: a <= p < b ==> !Tail(t, p, dash)
  {
  }

  /** The lazy group stops at the first end, within 40 characters of the
      capital, after which the tail matches. */
  lemma {:induction false} LazyEndFirst(t: string, j: nat, n: nat, e: nat, dash: bool)
    requires j < |t| && 1 <= n && j + n < e <= j + 41 && e <= |t|
    requires forall k :: j + n <= k < e ==> InNameClass(t[k])
    requires forall p :: j + n + 1 <= p < e ==> !Tail(t, p, dash)
    requires Tail(t, e, dash)
    ensures LazyEnd(t, j, n, dash) == Some(e)
    decreases e - n
  {
    if e != j + n + 1 {
      LazyEndFirst(t, j, n + 1, e, dash);
    }
  }

  /** The lazy group fails when a character outside the class comes before
      any place where the tail matches. */
  lemma {:induction false} LazyEndBlocked(t: string, j: nat, n: nat, x: nat, dash: bool)
    requires j < |t| && 1 <= n && j + n <= x < |t| && !InNameClass(t[x])
    requires forall p :: j + n + 1 <= p <= x ==> !Tail(t, p, dash)
    ensures LazyEnd(t, j, n, dash).None?
    decreases x - n
  {
    if n <= 40 && j + n < x && InNameClass(t[j + n]) {
      LazyEndBlocked(t, j, n + 1, x, dash);
    }
  }

  /** Positions without a `]` are passed over. */
  lemma SearchBracketSkips(t: string, i: nat, k: nat, dash: bool)
    requires i <= k <= |t| && forall m :: i <= m < k ==> t[m] != ']'
    ensures SearchBracket(t, i, dash) == SearchBracket(t, k, dash)
  {
    forall m | i <= m < k
      ensures SearchBracket(t, m, dash) == SearchBracket(t, m + 1, dash)
    {
      SearchBracketStep(t, m, dash);
    }
    ConstantRun((m: nat) => if m <= |t| then SearchBracket(t, m, dash) else None, i, k);
  }

  /** One position without a `]` is passed over. */
  lemma SearchBracketStep(t: string, i: nat, dash: bool)
    requires i < |t| && t[i] != ']'
    ensures SearchBracket(t, i, dash) == SearchBracket(t, i + 1, dash)
  {
    assert BracketAt(t, i, dash).None?;
  }

  /** Positions without a `(` are passed over. */
  lemma {:induction false} SearchOwnerSkips(t: string, i: nat, k: nat)
    requires i <= k <= |t| && forall m :: i <= m < k ==> t[m] != '('
    ensures SearchOwner(t, i) == SearchOwner(t, k)
    decreases k - i
  {
    if i < k {
      if i + 7 <= |t| {
        assert Lower(t[i..i + 7])[0] == LowerChar(t[i]) != '(';
      }
      SearchOwnerSkips(t, i + 1, k);
    }
  }

  /** The first pattern matched position by position: the first `]` at
      `i`, blanks up to a capital at `j`, a group of `[\w.\- ]` up to `e`
      inside which the tail never matches, then ` to` and a non-word
      character or the end. */
  lemma ToMatchAt(t: string, i: nat, j: nat, e: nat)
    requires i < j && j + 2 <= e <= j + 41 && e + 3 <= |t|
    requires (forall k :: 0 <= k < i ==> t[k] != ']') && t[i] == ']'
    requires (forall k :: i + 1 <= k < j ==> t[k] in Whitespace) && IsUpper(t[j])
    requires forall k :: j + 1 <= k < e ==> InNameClass(t[k])
    requires forall p :: j + 2 <= p < e ==> !Tail(t, p, false)
    requires t[e] == ' ' && t[e + 1] == 't' && t[e + 2] == 'o' && (e + 3 == |t| || !IsWordChar(t[e + 3]))
    ensures SearchBracket(t, 0, false) == Some((j, e))
  {
    SkipInIs(t, i + 1, j, Whitespace);
    SkipInIs(t, e, e + 1, Whitespace);
    LazyEndFirst(t, j, 1, e, false);
    BracketAtIs(t, i, j, e, false);
    SearchBracketAt(t, i, false);
  }

  /** When the first pattern matches, its group, stripped, is the name. */
  lemma ExtractNameFirst(t: string, j: nat, e: nat)
    requires SearchBracket(t, 0, false) == Some((j, e))
    ensures ExtractName(t) == Strip(t[j..e])
  {
  }

  /** The tail does not match at a word character. */
  lemma WordNoTail(t: string, a: nat, b: nat)
    requires a <= b <= |t| && forall k :: a <= k < b ==> IsWordChar(t[k])
    ensures forall p :: a <= p < b ==> !Tail(t, p, false)
  {
    forall p | a <= p < b
      ensures !Tail(t, p, false)
    {
      WordCharNotSpace(t[p]);
    }
  }

  /** In `name - word` the tail does not match, unless the word is `to`. */
  lemma HyphenNoTail(t: string, j: nat, m: nat, e: nat)
    requires j < m && m + 3 < e && e + 1 <= |t|
    requires (forall k :: j <= k < m ==> IsWordChar(t[k])) && (forall k :: m + 3 <= k < e ==> IsWordChar(t[k]))
    requires t[m] == ' ' && t[m + 1] == '-' && t[m + 2] == ' ' && t[e] == ' '
    requires !(e == m + 5 && t[m + 3] == 't' && t[m + 4] == 'o')
    ensures forall p :: j <= p < e ==> !Tail(t, p, false)
  {
    WordNoTail(t, j, m);
    WordNoTail(t, m + 3, e);
    SkipInIs(t, m, m + 1, Whitespace);
    SkipInIs(t, m + 2, m + 3, Whitespace);
  }

  /** A word character is not whitespace. */
  lemma WordCharNotSpace(c: char)
    requires IsWordChar(c)
    ensures c !in Whitespace
  {
  }

  /** The first pattern fails at a `]` whose word is followed by a blank
      and a long dash, since the dash is outside `[\w.\- ]`. */
  lemma ToBlockedByDash(t: string, j: nat, e: nat)
    requires j + 2 <= e && e + 3 <= |t|
    requires forall k :: j <= k < e ==> IsWordChar(t[k])
    requires t[e] == ' ' && t[e + 1] in {'\U{2014}', '\U{2013}'} && t[e + 2] == ' '
    ensures LazyEnd(t, j, 1, false).None?
  {
    forall p | j + 2 <= p <= e + 1
      ensures !Tail(t, p, false)
    {
      if p < e {
        WordCharNotSpace(t[p]);
      } else if p == e {
        SkipInIs(t, e, e + 1, Whitespace);
      }
    }
    LazyEndBlocked(t, j, 1, e + 1, false);
  }

  /** The first or second pattern at a `]` followed by blanks, a capital
      at `j` and a lazy group ending at `e`. */
  lemma BracketAtIs(t: string, i: nat, j: nat, e: nat, dash: bool)
    requires i < j < |t| && t[i] == ']' && SkipIn(t, i + 1, Whitespace) == j && IsUpper(t[j])
    requires LazyEnd(t, j, 1, dash) == Some(e)
    ensures BracketAt(t, i, dash) == Some((j, e))
  {
  }

  /** The search stops at the first `]` where the pattern matches. */
  lemma SearchBracketAt(t: string, i: nat, dash: bool)
    requires i < |t| && (forall k :: 0 <= k < i ==> t[k] != ']') && BracketAt(t, i, dash).Some?
    ensures SearchBracket(t, 0, dash) == BracketAt(t, i, dash)
  {
    SearchBracketSkips(t, 0, i, dash);
  }

  /** The search fails when the pattern fails at the only `]`. */
  lemma SearchBracketOnly(t: string, i: nat, dash: bool)
    requires i < |t| && (forall k :: 0 <= k < |t| && k != i ==> t[k] != ']') && BracketAt(t, i, dash).None?
    ensures SearchBracket(t, 0, dash).None?
  {
    SearchBracketSkips(t, 0, i, dash);
    SearchBracketSkips(t, i + 1, |t|, dash);
  }

  /** A `]` followed by blanks, a word from `j` to `e`, a blank, a long
      dash and a blank, as the only `]`: the first pattern fails. */
  lemma DashDefeatsTo(t: string, i: nat, j: nat, e: nat)
    requires i < j && j + 2 <= e && e + 3 <= |t|
    requires forall k :: 0 <= k < |t| && k != i ==> t[k] != ']'
    requires t[i] == ']' && SkipIn(t, i + 1, Whitespace) == j
    requires forall k :: j <= k < e ==> IsWordChar(t[k])
    requires t[e] == ' ' && t[e + 1] in {'\U{2014}', '\U{2013}'} && t[e + 2] == ' '
    ensures SearchBracket(t, 0, false).None?
  {
    ToBlockedByDash(t, j, e);
    SearchBracketOnly(t, i, false);
  }

  /** The same line matches the second pattern at its `]`. */
  lemma DashMatchFound(t: string, i: nat, j: nat, e: nat)
    requires i < j && j + 2 <= e <= j + 41 && e + 3 <= |t|
    requires (forall k :: 0 <= k < i ==> t[k] != ']') && t[i] == ']' && SkipIn(t, i + 1, Whitespace) == j
    requires IsUpper(t[j]) && forall k :: j <= k < e ==> IsWordChar(t[k])
    requires t[e] == ' ' && t[e + 1] in {'\U{2014}', '\U{2013}'} && t[e + 2] == ' '
    ensures SearchBracket(t, 0, true) == Some((j, e))
  {
    SkipInIs(t, e, e + 1, Whitespace);
    forall p | j + 2 <= p < e
      ensures !Tail(t, p, true)
    {
      WordCharNotSpace(t[p]);
    }
    LazyEndFirst(t, j, 1, e, true);
    SearchBracketAt(t, i, true);
  }

  /** The search for the third pattern stops at the first `(`
      when it opens `(owner: ` followed by a non-blank. */
  lemma OwnerAtIs(t: string, i: nat, c: nat)
    requires i + 8 < c < |t| && t[i..i + 8] == "(owner: "
    requires t[i + 8] !in Whitespace && t[c] == ')' && forall k :: i + 8 <= k < c ==> t[k] != ')'
    ensures OwnerAt(t, i) == Some((i + 8, c))
  {
    assert Lower(t[i..i + 7]) == "(owner:" by {
      assert t[i..i + 7] == t[i..i + 8][..7];
    }
    assert t[i + 7] == t[i..i + 8][7] == ' ';
    SkipInIs(t, i + 7, i + 8, Whitespace);
  }

  /** The third pattern matched position by position, the first two
      failing: no `]` at all, the first `(` at `i` opening `(owner: `, and a
      name from `i + 8` to the `)` at `c`. */
  lemma OwnerMatchAt(t: string, i: nat, c: nat)
    requires i + 8 < c < |t| && forall k :: 0 <= k < |t| ==> t[k] != ']'
    requires (forall k :: 0 <= k < i ==> t[k] != '(') && t[i..i + 8] == "(owner: "
    requires t[i + 8] !in Whitespace && t[c] == ')' && forall k :: i + 8 <= k < c ==> t[k] != ')'
    ensures SearchBracket(t, 0, false).None? && SearchBracket(t, 0, true).None?
    ensures SearchOwner(t, 0) == Some((i + 8, c))
  {
    SearchBracketSkips(t, 0, |t|, false);
    SearchBracketSkips(t, 0, |t|, true);
    OwnerAtIs(t, i, c);
    SearchOwnerSkips(t, 0, i);
  }

  /** A piece of text with no blank at either end is its own strip. */
  lemma StripPiece(t: string, j: nat, e: nat)
    requires j < e <= |t| && !IsSpace(t[j]) && !IsSpace(t[e - 1])
    ensures Strip(t[j..e]) == t[j..e]
  {
    var w := t[j..e];
    assert w[0] == t[j] && w[|w| - 1] == t[e - 1];
    StripInOfClean(w, Whitespace);
  }

  /** The owner of a line with the first `]` at `i`, blanks up to `j` and
      one word from `j` to `e` followed by ` to` and a word boundary. */
  lemma ToWordAt(t: string, i: nat, j: nat, e: nat)
    requires i < j && j + 2 <= e <= j + 41 && e + 3 <= |t|
    requires (forall k :: 0 <= k < i ==> t[k] != ']') && t[i] == ']'
    requires forall k :: i + 1 <= k < j ==> t[k] in Whitespace
    requires IsUpper(t[j]) && forall k :: j <= k < e ==> IsWordChar(t[k])
    requires t[e] == ' ' && t[e + 1] == 't' && t[e + 2] == 'o' && (e + 3 == |t| || !IsWordChar(t[e + 3]))
    ensures ExtractName(t) == t[j..e]
  {
    WordNoTail(t, j, e);
    ToMatchAt(t, i, j, e);
    ExtractNameFirst(t, j, e);
    WordCharNotSpace(t[j]);
    WordCharNotSpace(t[e - 1]);
    StripPiece(t, j, e);
  }

  /** Where the parts of `pre + "]" + gap + name + " to" + rest` lie. */
  lemma ToLayout(t: string, pre: string, gap: string, name: string, rest: string)
    requires forall k :: 0 <= k < |pre| ==> pre[k] != ']'
    requires AllIn(gap, Whitespace)
    requires 2 <= |name| <= 41 && IsUpper(name[0]) && forall k :: 0 <= k < |name| ==> IsWordChar(name[k])
    requires rest == [] || !IsWordChar(rest[0])
    requires t == pre + "]" + gap + name + " to" + rest
    ensures var i, j := |pre|, |pre| + 1 + |gap|;
      var e := j + |name|;
      i < j && j + 2 <= e <= j + 41 && e + 3 <= |t| &&
      (forall k :: 0 <= k < i ==> t[k] != ']') && t[i] == ']' &&
      (forall k :: i + 1 <= k < j ==> t[k] in Whitespace) &&
      IsUpper(t[j]) && (forall k :: j <= k < e ==> IsWordChar(t[k])) &&
      t[e] == ' ' && t[e + 1] == 't' && t[e + 2] == 'o' && (e + 3 == |t| || !IsWordChar(t[e + 3])) &&
      t[j..e] == name
  {
    var i := |pre|;
    var j := i + 1 + |gap|;
    var e := j + |name|;
    assert forall k :: 0 <= k < i ==> t[k] == pre[k];
    assert forall k :: i + 1 <= k < j ==> t[k] == gap[k - i - 1];
    assert forall k :: j <= k < e ==> t[k] == name[k - j];
    assert t[e..e + 3] == " to";
    assert e + 3 == |t| || t[e + 3] == rest[0];
    assert t[j..e] == name;
  }

  /** A single word between `]` and ` to` is the owner:
      `[high] Alex to ship the release` gives `Alex`. */
  lemma ExtractNameTo(pre: string, gap: string, name: string, rest: string)
    requires forall k :: 0 <= k < |pre| ==> pre[k] != ']'
    requires AllIn(gap, Whitespace)
    requires 2 <= |name| <= 41 && IsUpper(name[0]) && forall k :: 0 <= k < |name| ==> IsWordChar(name[k])
    requires rest == [] || !IsWordChar(rest[0])
    ensures ExtractName(pre + "]" + gap + name + " to" + rest) == name
  {
    var t := pre + "]" + gap + name + " to" + rest;
    var j := |pre| + 1 + |gap|;
    ToLayout(t, pre, gap, name, rest);
    ToWordAt(t, |pre|, j, j + |name|);
  }

  /** The owner of a line with the first `]` at `i`, blanks up to `j`, a
      word from `j` to `m`, ` - `, a word other than `to` up to `e`, then
      ` to` and a word boundary: both words and the hyphen. */
  lemma HyphenAt(t: string, i: nat, j: nat, m: nat, e: nat)
    requires i < j < m && m + 3 < e <= j + 41 && e + 3 <= |t|
    requires (forall k :: 0 <= k < i ==> t[k] != ']') && t[i] == ']'
    requires forall k :: i + 1 <= k < j ==> t[k] in Whitespace
    requires IsUpper(t[j]) && forall k :: j <= k < m ==> IsWordChar(t[k])
    requires t[m] == ' ' && t[m + 1] == '-' && t[m + 2] == ' '
    requires forall k :: m + 3 <= k < e ==> IsWordChar(t[k])
    requires !(e == m + 5 && t[m + 3] == 't' && t[m + 4] == 'o')
    requires t[e] == ' ' && t[e + 1] == 't' && t[e + 2] == 'o' && (e + 3 == |t| || !IsWordChar(t[e + 3]))
    ensures ExtractName(t) == t[j..e]
  {
    HyphenNoTail(t, j, m, e);
    ToMatchAt(t, i, j, e);
    ExtractNameFirst(t, j, e);
    WordCharNotSpace(t[j]);
    WordCharNotSpace(t[e - 1]);
    StripPiece(t, j, e);
  }

  /** Where the parts of `pre + "]" + gap + name + " - " + word + " to" +
      rest` lie. */
  lemma HyphenLayout(t: string, pre: string, gap: string, name: string, word: string, rest: string,
                      i: nat, j: nat, m: nat, e: nat)
    requires forall k :: 0 <= k < |pre| ==> pre[k] != ']'
    requires AllIn(gap, Whitespace)
    requires 1 <= |name| && IsUpper(name[0]) && forall k :: 0 <= k < |name| ==> IsWordChar(name[k])
    requires 1 <= |word| && word != "to" && forall k :: 0 <= k < |word| ==> IsWordChar(word[k])
    requires |name| + |word| <= 38
    requires rest == [] || !IsWordChar(rest[0])
    requires t == pre + "]" + gap + name + " - " + word + " to" + rest
    requires i == |pre| && j == i + 1 + |gap| && m == j + |name| && e == m + 3 + |word|
    ensures i < j < m && m + 3 < e <= j + 41 && e + 3 <= |t| &&
      (forall k :: 0 <= k < i ==> t[k] != ']') && t[i] == ']' &&
      (forall k :: i + 1 <= k < j ==> t[k] in Whitespace) &&
      IsUpper(t[j]) && (forall k :: j <= k < m ==> IsWordChar(t[k])) &&
      t[m] == ' ' && t[m + 1] == '-' && t[m + 2] == ' ' &&
      (forall k :: m + 3 <= k < e ==> IsWordChar(t[k])) &&
      !(e == m + 5 && t[m + 3] == 't' && t[m + 4] == 'o') &&
      t[e] == ' ' && t[e + 1] == 't' && t[e + 2] == 'o' && (e + 3 == |t| || !IsWordChar(t[e + 3]))
  {
    assert forall k :: 0 <= k < i ==> t[k] == pre[k];
    assert forall k :: i + 1 <= k < j ==> t[k] == gap[k - i - 1];
    assert forall k :: j <= k < m ==> t[k] == name[k - j];
    assert t[m..m + 3] == " - ";
    assert forall k :: m + 3 <= k < e ==> t[k] == word[k - m - 3];
    assert t[e..e + 3] == " to";
    assert e + 3 == |t| || t[e + 3] == rest[0];
    assert e == m + 5 ==> word == [t[m + 3], t[m + 4]];
  }

  /** The group of such a line is `name - word`. */
  lemma HyphenGroup(t: string, pre: string, gap: string, name: string, word: string, rest: string, j: nat)
    requires t == pre + "]" + gap + name + " - " + word + " to" + rest
    requires j == |pre| + 1 + |gap|
    ensures j + |name| + 3 + |word| <= |t| && t[j..j + |name| + 3 + |word|] == name + " - " + word
  {
    assert t == (pre + "]" + gap) + (name + " - " + word) + (" to" + rest);
  }

  /** An ASCII hyphen is inside `[\w.\- ]`, so the first pattern reads on
      past ` - ` to a later ` to`: the owner is both words and the hyphen
      between them. */
  lemma ExtractNameHyphen(pre: string, gap: string, name: string, word: string, rest: string)
    requires forall k :: 0 <= k < |pre| ==> pre[k] != ']'
    requires AllIn(gap, Whitespace)
    requires 1 <= |name| && IsUpper(name[0]) && forall k :: 0 <= k < |name| ==> IsWordChar(name[k])
    requires 1 <= |word| && word != "to" && forall k :: 0 <= k < |word| ==> IsWordChar(word[k])
    requires |name| + |word| <= 38
    requires rest == [] || !IsWordChar(rest[0])
    ensures ExtractName(pre + "]" + gap + name + " - " + word + " to" + rest) == name + " - " + word
  {
    var t := pre + "]" + gap + name + " - " + word + " to" + rest;
    var i := |pre|;
    var j := i + 1 + |gap|;
    var m := j + |name|;
    var e := m + 3 + |word|;
    HyphenLayout(t, pre, gap, name, word, rest, i, j, m, e);
    HyphenAt(t, i, j, m, e);
    HyphenGroup(t, pre, gap, name, word, rest, j);
  }

  /** When the first pattern fails and the second matches, its group,
      stripped, is the name. */
  lemma ExtractNameSecond(t: string, j: nat, e: nat)
    requires SearchBracket(t, 0, false).None? && SearchBracket(t, 0, true) == Some((j, e))
    ensures ExtractName(t) == Strip(t[j..e])
  {
  }

  /** The owner of a line with its only `]` at `i`, blanks up to `j`, one
      word from `j` to `e`, then a blank, a long dash and a blank. */
  lemma DashAt(t: string, i: nat, j: nat, e: nat)
    requires i < j && j + 2 <= e <= j + 41 && e + 3 <= |t|
    requires (forall k :: 0 <= k < i ==> t[k] != ']') && t[i] == ']'
    requires forall k :: i + 1 <= k < j ==> t[k] in Whitespace
    requires IsUpper(t[j]) && forall k :: j <= k < e ==> IsWordChar(t[k])
    requires t[e] == ' ' && t[e + 1] in {'\U{2014}', '\U{2013}'} && t[e + 2] == ' '
    requires forall k :: e + 3 <= k < |t| ==> t[k] != ']'
    ensures ExtractName(t) == t[j..e]
  {
    SkipInIs(t, i + 1, j, Whitespace);
    forall k | 0 <= k < |t| && k != i
      ensures t[k] != ']'
    {
      if i < k < j {
        assert t[k] in Whitespace;
      } else if j <= k < e {
        assert IsWordChar(t[k]);
      }
    }
    DashDefeatsTo(t, i, j, e);
    DashMatchFound(t, i, j, e);
    ExtractNameSecond(t, j, e);
    WordCharNotSpace(t[j]);
    WordCharNotSpace(t[e - 1]);
    StripPiece(t, j, e);
  }

  /** Where the parts of `pre + "]" + gap + name + " " + [dash] + " " +
      rest` lie. */
  lemma DashLayout(t: string, pre: string, gap: string, name: string, dash: char, rest: string)
    requires forall k :: 0 <= k < |pre| ==> pre[k] != ']'
    requires forall k :: 0 <= k < |rest| ==> rest[k] != ']'
    requires AllIn(gap, Whitespace)
    requires 2 <= |name| <= 41 && IsUpper(name[0]) && forall k :: 0 <= k < |name| ==> IsWordChar(name[k])
    requires dash in {'\U{2014}', '\U{2013}'}
    requires t == pre + "]" + gap + name + " " + [dash] + " " + rest
    ensures var i, j := |pre|, |pre| + 1 + |gap|;
      var e := j + |name|;
      i < j && j + 2 <= e <= j + 41 && e + 3 <= |t| &&
      (forall k :: 0 <= k < i ==> t[k] != ']') && t[i] == ']' &&
      (forall k :: i + 1 <= k < j ==> t[k] in Whitespace) &&
      IsUpper(t[j]) && (forall k :: j <= k < e ==> IsWordChar(t[k])) &&
      t[e] == ' ' && t[e + 1] in {'\U{2014}', '\U{2013}'} && t[e + 2] == ' ' &&
      (forall k :: e + 3 <= k < |t| ==> t[k] != ']') &&
      t[j..e] == name
  {
    var i := |pre|;
    var j := i + 1 + |gap|;
    var e := j + |name|;
    assert forall k :: 0 <= k < i ==> t[k] == pre[k];
    assert forall k :: i + 1 <= k < j ==> t[k] == gap[k - i - 1];
    assert forall k :: j <= k < e ==> t[k] == name[k - j];
    assert t[e..e + 3] == " " + [dash] + " ";
    assert forall k :: e + 3 <= k < |t| ==> t[k] == rest[k - e - 3];
    assert t[j..e] == name;
  }

  /** A single word between `]` and a long dash is the owner:
      `[p1] Priya – review the plan` gives `Priya`, provided no later `]`
      starts a match of the first pattern. */
  lemma ExtractNameDash(pre: string, gap: string, name: string, dash: char, rest: string)
    requires forall k :: 0 <= k < |pre| ==> pre[k] != ']'
    requires forall k :: 0 <= k < |rest| ==> rest[k] != ']'
    requires AllIn(gap, Whitespace)
    requires 2 <= |name| <= 41 && IsUpper(name[0]) && forall k :: 0 <= k < |name| ==> IsWordChar(name[k])
    requires dash in {'\U{2014}', '\U{2013}'}
    ensures ExtractName(pre + "]" + gap + name + " " + [dash] + " " + rest) == name
  {
    var t := pre + "]" + gap + name + " " + [dash] + " " + rest;
    var j := |pre| + 1 + |gap|;
    DashLayout(t, pre, gap, name, dash, rest);
    DashAt(t, |pre|, j, j + |name|);
  }

  /** With no `]` in the line, an `(owner: …)` note names the owner. */
  lemma ExtractNameOwner(pre: string, name: string, rest: string)
    requires forall k :: 0 <= k < |pre| ==> pre[k] != ']' && pre[k] != '('
    requires forall k :: 0 <= k < |name| ==> name[k] != ']' && name[k] != ')'
    requires forall k :: 0 <= k < |rest| ==> rest[k] != ']'
    requires name != [] && Strip(name) == name
    ensures ExtractName(pre + "(owner: " + name + ")" + rest) == name
  {
    var t := pre + "(owner: " + name + ")" + rest;
    var i := |pre|;
    var c := i + 8 + |name|;
    StripShape(name);
    assert forall k :: 0 <= k < i ==> t[k] == pre[k];
    assert t[i..i + 8] == "(owner: ";
    assert forall k :: i + 8 <= k < c ==> t[k] == name[k - i - 8];
    assert t[c] == ')';
    assert forall k :: c < k < |t| ==> t[k] == rest[k - c - 1];
    OwnerMatchAt(t, i, c);
    assert t[i + 8..c] == name;
  }

  /** A stripped group is part of the text. */
  lemma StrippedGroupInfix(text: string, g: (nat, nat))
    requires g.0 <= g.1 <= |text|
    ensures exists a, b :: 0 <= a <= b <= |text| && Strip(text[g.0..g.1]) == text[a..b]
  {
    StripInPiece(text, g.0, g.1, Whitespace);
  }

  /** The name is always a piece of the text. */
  lemma ExtractNameInfix(text: string)
    ensures exists a, b :: 0 <= a <= b <= |text| && ExtractName(text) == text[a..b]
  {
    match SearchBracket(text, 0, false)
    case Some(g) => StrippedGroupInfix(text, g);
    case None =>
      match SearchBracket(text, 0, true)
      case Some(g) => StrippedGroupInfix(text, g);
      case None =>
        match SearchOwner(text, 0)
        case Some(g) => StrippedGroupInfix(text, g);
        case None =>
          match SearchCapitalised(text, 0)
          case Some(g) => assert ExtractName(text) == text[g.0..g.1];
          case None => assert ExtractName(text) == text[0..0];
  }

  /** `[p1] Priya - go to X` cut into the parts of `ExtractNameHyphen`. */
  lemma HyphenLineParts(t: string)
    requires t == "[p1] Priya - go to X"
    ensures t == "[p1" + "]" + " " + "Priya" + " - " + "go" + " to" + " X"
    ensures "Priya" + " - " + "go" == "Priya - go"
  {
  }

  /** `[p1] Priya - go to X` gives `Priya - go`, not `Priya`. */
  lemma ExtractNameHyphenReadsOn(t: string)
    requires t == "[p1] Priya - go to X"
    ensures ExtractName(t) == "Priya - go"
  {
    HyphenLineParts(t);
    ExtractNameHyphen("[p1", " ", "Priya", "go", " X");
  }
}
