/**
 * scripts/sort_actions.py: rewriting the Actions section of a digest so
 * that its bullet lines come first, stably sorted by the priority tag
 * they carry, followed by the section's other lines. The file read and
 * write around the transform are left to the caller: `SortActions` maps
 * the text read to the text written.
 */
module SortActions {
  import opened Wrappers
  import opened Text
  import Sorting

  // ---------------------------------------------------------------------
  // `re.search(r"^##\s*Actions\s*$", t, re.M)`

  /** `^` under `re.M`: the start of the text or just after a `\n`. */
  predicate LineStart(t: string, p: nat)
    requires p <= |t|
  {
    p == 0 || t[p - 1] == '\n'
  }

  /** `\s*$` matched from `q` can stop at `e`: only whitespace lies in
      between, and `e` is the end of the text or a `\n` (`$` under `re.M`). */
  predicate LineEndAt(t: string, q: nat, e: nat)
  {
    q <= e <= |t| && AllInRange(t, q, e, Whitespace) && (e == |t| || t[e] == '\n')
  }

  /** Every character of `t[q..e]` is in `cs`. */
  predicate AllInRange(t: string, q: nat, e: nat, cs: set<char>)
    requires e <= |t|
  {
    forall m :: q <= m < e ==> t[m] in cs
  }

  /** The last `\n` in `t[q..j]`. */
  function LastNewline(t: string, q: nat, j: nat): (r: Option<nat>)
    requires q <= j <= |t|
    ensures r.Some? ==> q <= r.value < j && t[r.value] == '\n' && forall e :: r.value < e < j ==> t[e] != '\n'
    ensures r.None? ==> forall e :: q <= e < j ==> t[e] != '\n'
    decreases j - q
  {
    if j == q then None
    else if t[j - 1] == '\n' then Some(j - 1)
    else LastNewline(t, q, j - 1)
  }

  /** Where the greedy `\s*$` from `q` ends: the furthest place it can stop,
      or None when the whitespace run from `q` is followed by other text
      without a `\n` in it. */
  function LineEnd(t: string, q: nat): (r: Option<nat>)
    requires q <= |t|
    ensures r.Some? ==> LineEndAt(t, q, r.value) && forall e :: r.value < e <= |t| ==> !LineEndAt(t, q, e)
    ensures r.None? ==> forall e :: q <= e <= |t| ==> !LineEndAt(t, q, e)
  {
    var j := SkipIn(t, q, Whitespace);
    NewlineIsSpace();
    if j == |t| then Some(|t|)
    else
      var r := LastNewline(t, q, j);
      RunEnds(t, q, j, Whitespace);
      r
  }

  lemma NewlineIsSpace()
    ensures '\n' in Whitespace
  {
  }

  /** Past the end `j` of the run of `cs` from `q`, nothing more is all
      `cs`. */
  lemma RunEnds(t: string, q: nat, j: nat, cs: set<char>)
    requires q <= j < |t| && t[j] !in cs
    ensures forall e :: j < e <= |t| ==> !AllInRange(t, q, e, cs)
  {
  }

  /** Where a match of `^##\s*Actions\s*$` starting at `p` ends, if one
      does. */
  function HeadingEnd(t: string, p: nat): (r: Option<nat>)
    requires p <= |t|
    ensures r.Some? ==> p + 9 <= r.value <= |t|
  {
    if !(LineStart(t, p) && At(t, p, "##")) then None
    else
      var q := SkipIn(t, p + 2, Whitespace);
      if !At(t, q, "Actions") then None
      else LineEnd(t, q + 7)
  }

  /** `re.search` for the heading from `p` on: the leftmost start where it
      matches, and where that match ends. */
  function FindHeading(t: string, p: nat): (r: Option<(nat, nat)>)
    requires p <= |t|
    ensures r.Some? ==> p <= r.value.0 && r.value.0 + 9 <= r.value.1 <= |t|
    decreases |t| - p
  {
    match HeadingEnd(t, p)
    case Some(e) => Some((p, e))
    case None => if p == |t| then None else FindHeading(t, p + 1)
  }

  /** The search finds the leftmost heading match from `p` on, and finds
      none only when there is none. */
  lemma {:induction false} FindHeadingLeftmost(t: string, p: nat)
    requires p <= |t|
    ensures var r := FindHeading(t, p);
      && (r.Some? ==> HeadingEnd(t, r.value.0) == Some(r.value.1))
      && (r.Some? ==> NoHeading(t, p, r.value.0))
      && (r.None? ==> NoHeading(t, p, |t| + 1))
    decreases |t| - p
  {
    var h := HeadingEnd(t, p);
    if h.None? && p < |t| {
      FindHeadingLeftmost(t, p + 1);
      var r := FindHeading(t, p + 1);
      assert FindHeading(t, p) == r;
      if r.Some? {
        NoHeadingStep(t, p, r.value.0);
      } else {
        NoHeadingStep(t, p, |t| + 1);
      }
    }
  }

  /** No heading match starts anywhere from `p` up to, not including, `q`. */
  predicate NoHeading(t: string, p: nat, q: nat)
    requires q <= |t| + 1
  {
    forall k :: p <= k < q ==> HeadingEnd(t, k).None?
  }

  lemma NoHeadingStep(t: string, p: nat, q: nat)
    requires p < q <= |t| + 1
    requires HeadingEnd(t, p).None? && NoHeading(t, p + 1, q)
    ensures NoHeading(t, p, q)
  {
  }

  // ---------------------------------------------------------------------
  // `re.search(r"^##\s+\S+", t[start:], re.M)`

  /** `^##\s+\S+` matches at `p`: a line starting with `##`, at least one
      whitespace character, and then something that is not whitespace. */
  predicate NextHeadingAt(u: string, p: nat)
    requires p <= |u|
  {
    LineStart(u, p) && At(u, p, "##") && p + 2 < |u| && u[p + 2] in Whitespace
    && SkipIn(u, p + 2, Whitespace) < |u|
  }

  /** The leftmost place from `p` on where the next heading starts. */
  function FindNext(u: string, p: nat): (r: Option<nat>)
    requires p <= |u|
    ensures r.Some? ==> p <= r.value <= |u| && NextHeadingAt(u, r.value)
    ensures r.Some? ==> forall k :: p <= k < r.value ==> !NextHeadingAt(u, k)
    ensures r.None? ==> forall k :: p <= k <= |u| ==> !NextHeadingAt(u, k)
    decreases |u| - p
  {
    if NextHeadingAt(u, p) then Some(p)
    else if p == |u| then None
    else FindNext(u, p + 1)
  }

  /** `(start, end)`: the Actions block runs from the end of the heading
      match to the next `##` heading, or to the end of the text; None when
      there is no Actions heading. */
  function ActionsBlock(t: string): (r: Option<(nat, nat)>)
    ensures r.Some? ==> r.value.0 <= r.value.1 <= |t|
  {
    match FindHeading(t, 0)
    case None => None
    case Some((_, start)) =>
      match FindNext(t[start..], 0)
      case Some(k) => Some((start, start + k))
      case None => Some((start, |t|))
  }

  // ---------------------------------------------------------------------
  // reordering the block's lines

  /** `re.match(r"^\s*[-*]\s+", ln)`: optional indentation, a `-` or `*`
      marker, then whitespace. */
  predicate IsBullet(ln: string)
  {
    var j := SkipIn(ln, 0, Whitespace);
    j + 1 < |ln| && (ln[j] == '-' || ln[j] == '*') && ln[j + 1] in Whitespace
  }

  predicate NotBullet(ln: string)
  {
    !IsBullet(ln)
  }

  /** `key(ln)`: the first of the tags `[high]`, `[medium]`, `[low]` the
      lower-cased line contains decides; 3 when it has none. */
  function Rank(ln: string): (r: int)
    ensures 0 <= r <= 3
  {
    var s := Lower(ln);
    if Contains(s, "[high]") then 0
    else if Contains(s, "[medium]") then 1
    else if Contains(s, "[low]") then 2
    else 3
  }

  /** The rank as a sort key. */
  function RankKey(ln: string): Sorting.Key
  {
    [Sorting.Num(Rank(ln))]
  }

  /** `bullets`: the bullet lines in order. */
  function Bullets(lines: seq<string>): seq<string>
  {
    Sorting.Filter(lines, IsBullet)
  }

  /** `others`: the lines that are not among the bullets, in order. */
  function Others(lines: seq<string>): seq<string>
  {
    var bullets := Bullets(lines);
    Sorting.Filter(lines, ln => ln !in bullets)
  }

  /** The blank line put between the sorted bullets and the other lines:
      only when both exist and the first other line is not blank. */
  function Separator(sorted: seq<string>, others: seq<string>): seq<string>
  {
    if sorted != [] && others != [] && Strip(others[0]) != [] then [""] else []
  }

  /** The lines `"\n".join(...)` receives: the bullets sorted by rank, the
      separator, the other lines. */
  function Reordered(lines: seq<string>): seq<string>
  {
    var sorted := Sorting.StableSort(Bullets(lines), RankKey);
    sorted + Separator(sorted, Others(lines)) + Others(lines)
  }

  /** The text `sort_actions` writes back for the text `t` it read. */
  function SortActions(t: string): string
  {
    match ActionsBlock(t)
    case None => t
    case Some((start, end)) => t[..start] + "\n" + Rewritten(t, start, end) + "\n" + t[end..]
  }

  /** The block's lines (`block.splitlines()`) reordered, joined with `\n`
      and stripped of outer newlines. */
  function Rewritten(t: string, start: nat, end: nat): string
    requires start <= end <= |t|
  {
    StripIn(Join("\n", Reordered(SplitLines(t[start..end]))), {'\n'})
  }

  // ---------------------------------------------------------------------
  // what the rewrite promises

  /** There is no Actions block exactly when no line is a `## Actions`
      heading, and then the text is left as it is. */
  lemma NoHeadingUntouched(t: string)
    ensures ActionsBlock(t).None? <==> forall p :: 0 <= p <= |t| ==> HeadingEnd(t, p).None?
    ensures ActionsBlock(t).None? ==> SortActions(t) == t
  {
    FindHeadingLeftmost(t, 0);
    if FindHeading(t, 0).Some? {
      var p := FindHeading(t, 0).value.0;
      assert HeadingEnd(t, p).Some?;
    }
  }

  /** The block starts where the leftmost `## Actions` heading match ends. */
  lemma BlockStart(t: string)
    requires ActionsBlock(t).Some?
    ensures var start := ActionsBlock(t).value.0;
      exists p :: 0 <= p <= |t| && HeadingEnd(t, p) == Some(start)
        && forall k :: 0 <= k < p ==> HeadingEnd(t, k).None?
  {
    FindHeadingLeftmost(t, 0);
    var p := FindHeading(t, 0).value.0;
    assert HeadingEnd(t, p) == Some(ActionsBlock(t).value.0);
  }

  /** The block stops at the first `##` heading after its start (a line
      `##`, whitespace, then text, so `###` does not count), or at the end
      of the text. */
  lemma BlockEnd(t: string)
    requires ActionsBlock(t).Some?
    ensures var (start, end) := ActionsBlock(t).value;
      && (end == |t| || NextHeadingAt(t[start..], end - start))
      && (forall k :: 0 <= k < end - start ==> !NextHeadingAt(t[start..], k))
  {
  }

  /** The text before and after the block is kept verbatim; the block
      becomes a `\n`, the reordered lines with their outer newlines
      stripped, and a `\n`. */
  lemma BlockKept(t: string)
    requires ActionsBlock(t).Some?
    ensures var (start, end) := ActionsBlock(t).value;
      && StartsWith(SortActions(t), t[..start] + "\n")
      && EndsWith(SortActions(t), "\n" + t[end..])
      && SortActions(t) == t[..start] + "\n" + Rewritten(t, start, end) + "\n" + t[end..]
  {
    var (start, end) := ActionsBlock(t).value;
    RewriteShape(t, start, end);
    Framed(t[..start] + "\n", Rewritten(t, start, end), "\n" + t[end..]);
  }

  lemma RewriteShape(t: string, start: nat, end: nat)
    requires ActionsBlock(t) == Some((start, end))
    ensures SortActions(t) == (t[..start] + "\n") + Rewritten(t, start, end) + ("\n" + t[end..])
  {
  }

  /** Text put between `a` and `b` keeps both. */
  lemma Framed(a: string, m: string, b: string)
    ensures StartsWith(a + m + b, a) && EndsWith(a + m + b, b)
  {
    assert (a + m + b)[..|a|] == a;
    assert (a + m + b)[|a + m + b| - |b|..] == b;
  }

  /** Every line of the block is a bullet or one of the others, never both,
      and the others keep their order: `ln not in bullets` is the same as
      "is not a bullet line". */
  lemma OthersAreNonBullets(lines: seq<string>)
    ensures Others(lines) == Sorting.Filter(lines, NotBullet)
  {
    var bullets := Bullets(lines);
    forall x | x in bullets
      ensures IsBullet(x)
    {
      Sorting.FilterMembers(lines, IsBullet, x);
    }
    forall x | x in lines && IsBullet(x)
      ensures x in bullets
    {
      Sorting.FilterMembers(lines, IsBullet, x);
    }
    OthersFilter(lines, bullets);
  }

  lemma {:induction false} OthersFilter(xs: seq<string>, bullets: seq<string>)
    requires forall x :: x in bullets ==> IsBullet(x)
    requires forall x :: x in xs && IsBullet(x) ==> x in bullets
    ensures Sorting.Filter(xs, ln => ln !in bullets) == Sorting.Filter(xs, NotBullet)
  {
    if xs != [] {
      OthersFilter(xs[1..], bullets);
    }
  }

  /** The bullets come first, stably sorted by rank: in rank order, the
      same lines, lines of equal rank in their original order, and all of
      them bullet lines. */
  lemma SortedBullets(lines: seq<string>)
    ensures var bullets := Bullets(lines);
      var sorted := Reordered(lines)[..|bullets|];
      && Sorting.SortedBy(sorted, RankKey)
      && multiset(sorted) == multiset(bullets)
      && (forall k :: Sorting.Having(sorted, RankKey, k) == Sorting.Having(bullets, RankKey, k))
      && (forall i :: 0 <= i < |sorted| ==> IsBullet(sorted[i]))
  {
    var bullets := Bullets(lines);
    var sorted := Sorting.StableSort(bullets, RankKey);
    assert Reordered(lines)[..|bullets|] == sorted;
    Sorting.StableSortSorted(bullets, RankKey);
    Sorting.StableSortPermutation(bullets, RankKey);
    forall k
      ensures Sorting.Having(sorted, RankKey, k) == Sorting.Having(bullets, RankKey, k)
    {
      Sorting.StableSortStable(bullets, RankKey, k);
    }
    forall i | 0 <= i < |sorted|
      ensures IsBullet(sorted[i])
    {
      assert sorted[i] in multiset(bullets);
      Sorting.FilterMembers(lines, IsBullet, sorted[i]);
    }
  }

  /** The other lines come last, in their original order, and none of them
      is a bullet line. */
  lemma OthersLast(lines: seq<string>)
    ensures var r := Reordered(lines);
      var others := Sorting.Filter(lines, NotBullet);
      && |others| <= |r|
      && r[|r| - |others|..] == others
      && (forall i :: |r| - |others| <= i < |r| ==> !IsBullet(r[i]))
  {
    OthersAreNonBullets(lines);
    var others := Others(lines);
    var r := Reordered(lines);
    var front := Sorting.StableSort(Bullets(lines), RankKey) + Separator(Sorting.StableSort(Bullets(lines), RankKey), others);
    assert r == front + others;
    TailKept(front, others);
    NoneBullets(lines);
  }

  lemma TailKept<T>(front: seq<T>, tail: seq<T>)
    ensures var r := front + tail;
      r[|r| - |tail|..] == tail
      && forall i :: |r| - |tail| <= i < |r| ==> r[i] == tail[i - |front|]
  {
    assert (front + tail)[|front|..] == tail;
  }

  /** No line kept by the complement filter is a bullet line. */
  lemma NoneBullets(lines: seq<string>)
    ensures var others := Sorting.Filter(lines, NotBullet);
      forall i :: 0 <= i < |others| ==> !IsBullet(others[i])
  {
    var others := Sorting.Filter(lines, NotBullet);
    forall i | 0 <= i < |others|
      ensures !IsBullet(others[i])
    {
      Sorting.FilterMembers(lines, NotBullet, others[i]);
    }
  }

  /** Between the bullets and the other lines there is one blank line
      exactly when there are bullets, there are other lines, and the first
      other line is not blank; otherwise nothing. */
  lemma SeparatorRule(lines: seq<string>)
    ensures var r := Reordered(lines);
      var nb, no := |Bullets(lines)|, |Others(lines)|;
      var blank := nb > 0 && no > 0 && Strip(Others(lines)[0]) != [];
      && |r| == nb + no + (if blank then 1 else 0)
      && (blank ==> r[nb] == "")
  {
  }

  /** No line of the block is lost or made up: the reordered lines are the
      block's lines plus the separator, if any. */
  lemma LinesKept(lines: seq<string>)
    ensures var sorted := Sorting.StableSort(Bullets(lines), RankKey);
      multiset(Reordered(lines)) == multiset(lines) + multiset(Separator(sorted, Others(lines)))
  {
    var bullets := Bullets(lines);
    var sorted := Sorting.StableSort(bullets, RankKey);
    var others := Others(lines);
    var sep := Separator(sorted, others);
    Sorting.StableSortPermutation(bullets, RankKey);
    OthersAreNonBullets(lines);
    BulletsShare(lines);
    assert Reordered(lines) == sorted + sep + others;
    assert multiset(sorted + sep + others) == multiset(sorted) + multiset(sep) + multiset(others);
  }

  /** The bullet lines and the other lines share out the block's lines. */
  lemma {:induction false} BulletsShare(xs: seq<string>)
    ensures multiset(Bullets(xs)) + multiset(Sorting.Filter(xs, NotBullet)) == multiset(xs)
  {
    if xs != [] {
      var x, rest := xs[0], xs[1..];
      BulletsShare(rest);
      assert xs == [x] + rest;
      var fp, fq := Bullets(rest), Sorting.Filter(rest, NotBullet);
      assert multiset(xs) == multiset{x} + multiset(rest);
      if IsBullet(x) {
        assert Bullets(xs) == [x] + fp;
        assert Sorting.Filter(xs, NotBullet) == fq;
        assert multiset(Bullets(xs)) == multiset{x} + multiset(fp);
      } else {
        assert Bullets(xs) == fp;
        assert Sorting.Filter(xs, NotBullet) == [x] + fq;
        assert multiset(Sorting.Filter(xs, NotBullet)) == multiset{x} + multiset(fq);
      }
    }
  }

  /** The rank ignores letter case. */
  lemma RankIgnoresCase(ln: string)
    ensures Rank(Lower(ln)) == Rank(ln)
  {
    LowerIdempotent(ln);
  }

  /** When the reordered lines neither start nor end with an empty line,
      stripping the outer newlines changes nothing: the block is exactly
      the reordered lines joined with `\n`. */
  lemma BlockExact(lines: seq<string>)
    requires forall i :: 0 <= i < |lines| ==> '\n' !in lines[i]
    requires Reordered(lines) != [] && Reordered(lines)[0] != [] && Sorting.Last(Reordered(lines)) != []
    ensures StripIn(Join("\n", Reordered(lines)), {'\n'}) == Join("\n", Reordered(lines))
  {
    var r := Reordered(lines);
    LinesKept(lines);
    assert r[0] in multiset(r);
    assert Sorting.Last(r) in multiset(r);
    JoinStarts("\n", r);
    JoinEnds("\n", r);
    var j := Join("\n", r);
    assert j[0] == r[0][0];
    assert j[|j| - 1] == Sorting.Last(r)[|Sorting.Last(r)| - 1];
    StripInOfClean(j, {'\n'});
  }


  /** A join begins with its first element. */
  lemma JoinStarts(sep: string, xs: seq<string>)
    requires xs != []
    ensures StartsWith(Join(sep, xs), xs[0])
  {
    if |xs| > 1 {
      var j := Join(sep, xs);
      assert j == xs[0] + (sep + Join(sep, xs[1..]));
      assert j[..|xs[0]|] == xs[0];
    }
  }

  /** A join ends with its last element. */
  lemma {:induction false} JoinEnds(sep: string, xs: seq<string>)
    requires xs != []
    ensures EndsWith(Join(sep, xs), Sorting.Last(xs))
  {
    if |xs| > 1 {
      JoinEnds(sep, xs[1..]);
      var rest := Join(sep, xs[1..]);
      var j := Join(sep, xs);
      assert Sorting.Last(xs[1..]) == Sorting.Last(xs);
      assert j == (xs[0] + sep) + rest;
      assert j[|j| - |Sorting.Last(xs)|..] == rest[|rest| - |Sorting.Last(xs)|..];
    }
  }
}
