/**
 * The line helpers of the older, line-by-line parser at the repository
 * root (team_email_digest.py): section aliases, `HEADER_RE`, `BULLET_RE`,
 * whitespace collapsing, order-preserving de-duplication and the M/D/Y
 * date normalisation.
 *
 * `HEADER_RE` and `BULLET_RE` are written out as scanners that follow the
 * backtracking each pattern admits; `\d` and `lower()` are ASCII.
 */
module LegacyText {
  import opened Wrappers
  import opened Text
  import Dates
  import LogText

  // ---------------------------------------------------------------------
  // SECTION_ALIASES, _section_key

  /** The canonical keys of `SECTION_ALIASES`, in the dict's order. */
  datatype Key = Summary | Decisions | Actions | Risks | Dependencies | OpenQuestions

  const Keys: seq<Key> := [Summary, Decisions, Actions, Risks, Dependencies, OpenQuestions]

  function Aliases(k: Key): seq<string>
  {
    match k
    case Summary => ["summary"]
    case Decisions => ["decision", "decisions"]
    case Actions => ["action", "actions", "todo", "todos", "to-dos"]
    case Risks => ["risk", "risks"]
    case Dependencies => ["dependency", "dependencies", "deps"]
    case OpenQuestions => ["open question", "open questions", "questions", "oq"]
  }

  /** The loop over `SECTION_ALIASES.items()` from the `i`-th key on. */
  function KeyFrom(n: string, i: nat): (r: Option<Key>)
    requires i <= |Keys|
    ensures r.Some? ==> n in Aliases(r.value)
    decreases |Keys| - i
  {
    if i == |Keys| then None
    else if n in Aliases(Keys[i]) then Some(Keys[i])
    else KeyFrom(n, i + 1)
  }

  /** `_section_key`. */
  function SectionKey(name: string): (r: Option<Key>)
  {
    KeyFrom(Lower(Strip(name)), 0)
  }

  /** No alias belongs to two keys. */
  lemma AliasesDisjoint(n: string, j: Key, k: Key)
    requires n in Aliases(j) && n in Aliases(k)
    ensures j == k
  {
  }

  /** A name has a key exactly when its stripped, lower-cased form is one of
      that key's aliases. */
  lemma SectionKeyIs(name: string, k: Key)
    ensures SectionKey(name) == Some(k) <==> Lower(Strip(name)) in Aliases(k)
  {
    var n := Lower(Strip(name));
    if n in Aliases(k) {
      var r := SectionKey(name);
      assert k in Keys;
      KeyFromFinds(n, 0, k);
      AliasesDisjoint(n, k, r.value);
    }
  }

  /** The loop finds a key whose alias list holds the name. */
  lemma {:induction false} KeyFromFinds(n: string, i: nat, k: Key)
    requires i <= |Keys| && n in Aliases(k) && k in Keys[i..]
    ensures KeyFrom(n, i).Some?
    decreases |Keys| - i
  {
    if Keys[i] != k {
      assert k in Keys[i + 1..];
      KeyFromFinds(n, i + 1, k);
    }
  }

  /** `"To-Dos"` names the Actions section. */
  lemma SectionKeyToDos()
    ensures SectionKey(" To-Dos ") == Some(Actions)
  {
    var s := " To-Dos ";
    assert SkipIn(s, 0, Whitespace) == 1 by { SkipInIs(s, 0, 1, Whitespace); }
    assert BackIn(s[1..], 7, Whitespace) == 6 by { BackInIs(s[1..], 7, 6, Whitespace); }
    assert Strip(s) == "To-Dos";
    assert Lower("To-Dos") == "to-dos";
    SectionKeyIs(s, Actions);
  }

  // ---------------------------------------------------------------------
  // HEADER_RE = ^\s*(?:#+\s*)?([A-Za-z][A-Za-z\s_-]+?)\s*:?\s*(.*)$, _match_header

  /** `[A-Za-z\s_-]`. */
  predicate HeaderChar(c: char)
  {
    IsLetter(c) || IsSpace(c) || c == '_' || c == '-'
  }

  /** Where the group of `HEADER_RE` must start: past the leading
      whitespace and, when a `#` follows, past the run of `#` and the
      whitespace after it. Giving back any of these characters leaves a
      `#` or whitespace where the group needs a letter. */
  function GroupStart(line: string): (j: nat)
    ensures j <= |line|
  {
    var i := SkipIn(line, 0, Whitespace);
    if i < |line| && line[i] == '#' then SkipIn(line, SkipIn(line, i, {'#'}), Whitespace) else i
  }

  /** The two groups of `HEADER_RE.match(line)` for a line without a
      newline. The lazy group stops after its second character, since
      `\s*:?\s*(.*)$` then matches whatever follows. */
  function HeaderGroups(line: string): (r: Option<(string, string)>)
    requires '\n' !in line
    ensures r.Some? ==> |r.value.0| == 2 && IsLetter(r.value.0[0]) && HeaderChar(r.value.0[1])
    ensures r.Some? ==> |r.value.1| <= |line| && line[|line| - |r.value.1|..] == r.value.1
  {
    var j := GroupStart(line);
    if j + 2 <= |line| && IsLetter(line[j]) && HeaderChar(line[j + 1]) then
      var a := SkipIn(line, j + 2, Whitespace);
      var b := if a < |line| && line[a] == ':' then SkipIn(line, a + 1, Whitespace) else a;
      Some((line[j..j + 2], line[b..]))
    else None
  }

  /** `_match_header`: the key named by the header group, and the trailing
      text. */
  function MatchHeader(line: string): (r: Option<(Key, string)>)
    requires '\n' !in line
  {
    match HeaderGroups(line)
    case None => None
    case Some((header, trailing)) =>
      var key := SectionKey(Strip(Lower(header)));
      if key.Some? then Some((key.value, trailing)) else None
  }

  /** Since the header group is two characters long, the only alias it can
      spell is `oq`: a line switches section exactly when its header group
      reads `oq` in any case, and then always to Open Questions. */
  lemma MatchHeaderIs(line: string)
    requires '\n' !in line
    ensures MatchHeader(line) ==
      if HeaderGroups(line).Some? && Lower(HeaderGroups(line).value.0) == "oq"
      then Some((OpenQuestions, HeaderGroups(line).value.1))
      else None
  {
    if HeaderGroups(line).Some? {
      var h := HeaderGroups(line).value.0;
      HeaderKey(h);
    }
  }

  /** The key a two-character header group names. */
  lemma HeaderKey(h: string)
    requires |h| == 2 && IsLetter(h[0]) && HeaderChar(h[1])
    ensures SectionKey(Strip(Lower(h))) == if Lower(h) == "oq" then Some(OpenQuestions) else None
  {
    var x := Lower(h);
    LowerIdempotent(h);
    if IsSpace(x[1]) {
      assert SkipIn(x, 0, Whitespace) == 0;
      BackInIs(x, 2, 1, Whitespace);
      assert Strip(x) == [x[0]];
      assert SkipIn([x[0]], 0, Whitespace) == 0;
      BackInIs([x[0]], 1, 1, Whitespace);
      assert Strip(Strip(x)) == [x[0]];
      assert x != "oq";
      NoKey(Strip(x));
    } else {
      StripInOfClean(x, Whitespace);
      assert Strip(Strip(x)) == x;
      if x == "oq" {
        SectionKeyIs(x, OpenQuestions);
      } else {
        NoKey(x);
      }
    }
  }

  /** A name of at most two characters other than `oq` names no section. */
  lemma NoKey(x: string)
    requires |Lower(Strip(x))| <= 2 && Lower(Strip(x)) != "oq"
    ensures SectionKey(x) == None
  {
    if SectionKey(x).Some? {
      SectionKeyIs(x, SectionKey(x).value);
      ShortAlias(Lower(Strip(x)), SectionKey(x).value);
    }
  }

  /** The one alias of at most two characters. */
  lemma ShortAlias(n: string, k: Key)
    requires |n| <= 2 && n in Aliases(k)
    ensures n == "oq" && k == OpenQuestions
  {
  }

  /** A Markdown heading is read by its first two letters only. */
  lemma HashHeading(title: string)
    requires |title| >= 2 && IsLetter(title[0]) && IsLetter(title[1]) && '\n' !in title
    ensures '\n' !in "## " + title
    ensures Lower(title[..2]) != "oq" ==> MatchHeader("## " + title) == None
  {
    var line := "## " + title;
    HashLayout(title);
    MatchHeaderIs(line);
  }

  /** In `## title` the header group starts at the title. */
  lemma HashLayout(title: string)
    requires |title| >= 2 && IsLetter(title[0]) && IsLetter(title[1]) && '\n' !in title
    ensures var line := "## " + title;
      && '\n' !in line && GroupStart(line) == 3
      && HeaderGroups(line).Some? && HeaderGroups(line).value.0 == title[..2]
  {
    var line := "## " + title;
    HashStart(title);
    assert line[3..5] == title[..2];
  }

  /** The header characters of a clean title run to the end of
      `## title`. */
  lemma HashRun(title: string)
    requires CleanTitle(title)
    ensures var line := "## " + title;
      HeaderChar(line[4]) && HeaderRun(line, 4) == |line|
  {
    var line := "## " + title;
    assert forall m :: 3 <= m < |line| ==> line[m] == title[m - 3];
    HeaderRunTo(line, 4, |line|);
  }

  /** In `## title`, for a title that starts with a letter, the header
      group starts at the title. */
  lemma HashStart(title: string)
    requires |title| >= 1 && IsLetter(title[0]) && '\n' !in title
    ensures var line := "## " + title;
      '\n' !in line && GroupStart(line) == 3 && line[3] == title[0]
  {
    var line := "## " + title;
    assert line[0] == '#' && line[1] == '#' && line[2] == ' ';
    assert forall k :: 3 <= k < |line| ==> line[k] == title[k - 3];
    SkipInIs(line, 0, 0, Whitespace);
    SkipInIs(line, 0, 2, {'#'});
    SkipInIs(line, 2, 3, Whitespace);
  }

  /** The docstring's `## Summary` is not a header: its group is `Su`. */
  lemma SummaryHeadingIgnored()
    ensures MatchHeader("## Summary") == None
  {
    var title := "Summary";
    assert title[0] == 'S' && title[1] == 'u' && title[..2] == "Su";
    assert Lower("Su")[0] == 's';
    assert "## " + title == "## Summary";
    HashHeading(title);
  }

  /** `XY: text` names a section only when `XY` is `oq` in any case, and then
      carries the text. */
  lemma PlainHeader(h: string, trailing: string)
    requires |h| == 2 && IsLetter(h[0]) && IsLetter(h[1]) && '\n' !in trailing
    requires trailing == [] || !IsSpace(trailing[0])
    ensures '\n' !in h + ": " + trailing
    ensures MatchHeader(h + ": " + trailing) ==
      if Lower(h) == "oq" then Some((OpenQuestions, trailing)) else None
  {
    var line := h + ": " + trailing;
    assert line[0] == h[0] && line[1] == h[1] && line[2] == ':' && line[3] == ' ';
    assert forall k :: 4 <= k < |line| ==> line[k] == trailing[k - 4];
    SkipInIs(line, 0, 0, Whitespace);
    SkipInIs(line, 2, 2, Whitespace);
    SkipInIs(line, 3, 4, Whitespace);
    assert line[0..2] == h && line[4..] == trailing;
    MatchHeaderIs(line);
  }

  /** `OQ: who signs off?` opens Open Questions with the trailing text. */
  lemma OpenQuestionsHeader()
    ensures MatchHeader("OQ: who signs off?") == Some((OpenQuestions, "who signs off?"))
  {
    var h, trailing := "OQ", "who signs off?";
    assert h[0] == 'O' && h[1] == 'Q' && trailing[0] == 'w';
    assert Lower(h) == "oq";
    assert h + ": " + trailing == "OQ: who signs off?";
    PlainHeader(h, trailing);
  }

  // The header group as the docstring of the module describes it: the whole
  // name before an optional colon, as a greedy `+` would capture it.

  /** The end of the run of `[A-Za-z\s_-]` from `i`. */
  function HeaderRun(line: string, i: nat): (e: nat)
    requires i <= |line|
    ensures i <= e <= |line|
    ensures forall k :: i <= k < e ==> HeaderChar(line[k])
    ensures e < |line| ==> !HeaderChar(line[e])
    decreases |line| - i
  {
    if i < |line| && HeaderChar(line[i]) then HeaderRun(line, i + 1) else i
  }

  /** The two groups of `^\s*(?:#+\s*)?([A-Za-z][A-Za-z\s_-]+)\s*:?\s*(.*)$`,
      the header pattern with a greedy group: the whole run of header
      characters, then the text after an optional colon. */
  function GreedyHeaderGroups(line: string): (r: Option<(string, string)>)
    requires '\n' !in line
  {
    var j := GroupStart(line);
    if j + 2 <= |line| && IsLetter(line[j]) && HeaderChar(line[j + 1]) then
      var e := HeaderRun(line, j + 1);
      var b := if e < |line| && line[e] == ':' then SkipIn(line, e + 1, Whitespace) else e;
      Some((line[j..e], line[b..]))
    else None
  }

  /** `_match_header` over the greedy groups. */
  function GreedyMatchHeader(line: string): Option<(Key, string)>
    requires '\n' !in line
  {
    match GreedyHeaderGroups(line)
    case None => None
    case Some((header, trailing)) =>
      var key := SectionKey(Strip(Lower(header)));
      if key.Some? then Some((key.value, trailing)) else None
  }

  /** The greedy groups of a line whose group starts at `j`, whose run of
      header characters ends at `e` and whose trailing text starts at `b`. */
  lemma GreedyGroupsAt(line: string, j: nat, e: nat, b: nat)
    requires '\n' !in line && GroupStart(line) == j
    requires j + 2 <= |line| && IsLetter(line[j]) && HeaderChar(line[j + 1])
    requires HeaderRun(line, j + 1) == e
    requires e <= b <= |line|
    requires if e < |line| && line[e] == ':' then SkipIn(line, e + 1, Whitespace) == b else b == e
    ensures GreedyHeaderGroups(line) == Some((line[j..e], line[b..]))
  {
  }

  /** The pieces of a concatenation of three. */
  lemma Parts(a: string, b: string, c: string)
    ensures var s := a + b + c;
      s[0..|a|] == a && s[|a|..|a| + |b|] == b && s[|a| + |b|..] == c && s[|a|..|s|] == b + c
  {
  }

  /** The pieces of a concatenation of two. */
  lemma Split2(a: string, b: string)
    ensures (a + b)[|a|..|a + b|] == b
  {
  }

  /** Groups whose header names `k` make a header line of `k`. */
  lemma HeaderOfGroups(line: string, header: string, trailing: string, k: Key)
    requires '\n' !in line && GreedyHeaderGroups(line) == Some((header, trailing))
    requires SectionKey(Strip(Lower(header))) == Some(k)
    ensures GreedyMatchHeader(line) == Some((k, trailing))
  {
  }

  /** A clean title: a letter, then header characters, no line break and
      no trailing whitespace. */
  predicate CleanTitle(title: string)
  {
    && |title| >= 2 && IsLetter(title[0]) && !IsSpace(title[|title| - 1])
    && (forall i :: 0 <= i < |title| ==> HeaderChar(title[i]) && title[i] != '\n')
  }

  /** A clean title spelling an alias of `k`, in any case, names `k`. */
  lemma TitleKey(title: string, k: Key)
    requires CleanTitle(title) && Lower(title) in Aliases(k)
    ensures SectionKey(Strip(Lower(title))) == Some(k)
  {
    var x := Lower(title);
    assert !IsSpace(x[0]) && !IsSpace(x[|x| - 1]);
    StripInOfClean(x, Whitespace);
    LowerIdempotent(title);
    SectionKeyIs(x, k);
  }

  /** With the greedy group, `## Title` opens the section the title names,
      as the module's docstring promises. */
  lemma GreedyHashHeading(title: string, k: Key)
    requires CleanTitle(title) && Lower(title) in Aliases(k)
    ensures '\n' !in "## " + title
    ensures GreedyMatchHeader("## " + title) == Some((k, []))
  {
    var line := "## " + title;
    HashStart(title);
    HashRun(title);
    GreedyGroupsAt(line, 3, |line|, |line|);
    Split2("## ", title);
    assert line[|line|..] == [];
    TitleKey(title, k);
    HeaderOfGroups(line, title, [], k);
  }

  /** With the greedy group, `Title: text` opens the section the title
      names and carries the text. */
  lemma GreedyColonHeader(title: string, trailing: string, k: Key)
    requires CleanTitle(title) && Lower(title) in Aliases(k)
    requires '\n' !in trailing && (trailing == [] || !IsSpace(trailing[0]))
    ensures '\n' !in title + ": " + trailing
    ensures GreedyMatchHeader(title + ": " + trailing) == Some((k, trailing))
  {
    var line := title + ": " + trailing;
    var n := |title|;
    ColonLayout(title, trailing);
    GreedyGroupsAt(line, 0, n, n + 2);
    Parts(title, ": ", trailing);
    TitleKey(title, k);
    HeaderOfGroups(line, title, trailing, k);
  }

  /** Where the pieces of `title: trailing` lie for the greedy pattern. */
  lemma ColonLayout(title: string, trailing: string)
    requires CleanTitle(title)
    requires '\n' !in trailing && (trailing == [] || !IsSpace(trailing[0]))
    ensures var line, n := title + ": " + trailing, |title|;
      && '\n' !in line && GroupStart(line) == 0
      && IsLetter(line[0]) && HeaderChar(line[1])
      && HeaderRun(line, 1) == n && line[n] == ':'
      && SkipIn(line, n + 1, Whitespace) == n + 2
  {
    var line := title + ": " + trailing;
    var n := |title|;
    assert forall m :: 0 <= m < n ==> line[m] == title[m];
    assert line[n] == ':' && line[n + 1] == ' ';
    assert forall m :: n + 2 <= m < |line| ==> line[m] == trailing[m - n - 2];
    SkipInIs(line, 0, 0, Whitespace);
    HeaderRunTo(line, 1, n);
    SkipInIs(line, n + 1, n + 2, Whitespace);
  }

  /** `HeaderRun` is determined by the run it stops after. */
  lemma {:induction false} HeaderRunTo(line: string, i: nat, e: nat)
    requires i <= e <= |line|
    requires forall k :: i <= k < e ==> HeaderChar(line[k])
    requires e < |line| ==> !HeaderChar(line[e])
    ensures HeaderRun(line, i) == e
    decreases e - i
  {
    if i < e {
      HeaderRunTo(line, i + 1, e);
    }
  }

  /** Where the pattern as written reads `## Summary` as no header at all,
      the greedy group reads it as the Summary heading. */
  lemma GreedySummaryHeading()
    ensures GreedyMatchHeader("## Summary") == Some((Summary, []))
  {
    var title := "Summary";
    assert Lower(title) == "summary";
    assert "## " + title == "## Summary";
    GreedyHashHeading(title, Summary);
  }

  // ---------------------------------------------------------------------
  // BULLET_RE = ^\s*(?:[-*•]\s+|\d+\.\s+|\(\d+\)\s+|\[\s*\]\s+|\[\s*x\s*\]\s+), _strip_bullet

  /** The end of a list marker of `BULLET_RE` that starts at `i` (before
      the whitespace that must follow it): `-`, `*` or `•`; digits and `.`;
      digits in parentheses; an empty checkbox or one holding a lower-case
      `x`, with any whitespace inside. */
  function MarkerEnd(s: string, i: nat): (r: Option<nat>)
    requires i <= |s|
    ensures r.Some? ==> i < r.value <= |s|
  {
    if i == |s| then None
    else if s[i] in {'-', '*', '\U{2022}'} then Some(i + 1)
    else if s[i] in LogText.DigitChars then
      var d := SkipIn(s, i, LogText.DigitChars);
      if d < |s| && s[d] == '.' then Some(d + 1) else None
    else if s[i] == '(' then
      var d := SkipIn(s, i + 1, LogText.DigitChars);
      if i + 1 < d < |s| && s[d] == ')' then Some(d + 1) else None
    else if s[i] == '[' then
      var a := SkipIn(s, i + 1, Whitespace);
      if a < |s| && s[a] == ']' then Some(a + 1)
      else if a < |s| && s[a] == 'x' then
        var b := SkipIn(s, a + 1, Whitespace);
        if b < |s| && s[b] == ']' then Some(b + 1) else None
      else None
    else None
  }

  /** The end of the `BULLET_RE` match at the start of `s`, when there is
      one: the indentation, a marker and the whitespace after it. */
  function BulletEnd(s: string): (r: Option<nat>)
    ensures r.Some? ==> r.value <= |s|
  {
    var i := SkipIn(s, 0, Whitespace);
    var m := MarkerEnd(s, i);
    if m.Some? && m.value < |s| && IsSpace(s[m.value]) then Some(SkipIn(s, m.value, Whitespace))
    else None
  }

  /** `_strip_bullet`: the text after one leading marker, stripped. */
  function StripBullet(s: string): string
  {
    Strip(if BulletEnd(s).Some? then s[BulletEnd(s).value..] else s)
  }

  /** The marker strings. */
  predicate IsMarker(m: string)
  {
    || m in ["-", "*", "\U{2022}", "[]", "[ ]", "[x]", "[ x ]"]
    || (|m| >= 2 && AllIn(m[..|m| - 1], LogText.DigitChars) && m[|m| - 1] == '.')
    || (|m| >= 3 && m[0] == '(' && AllIn(m[1..|m| - 1], LogText.DigitChars) && m[|m| - 1] == ')')
  }

  /** Every marker style, however indented and spaced, yields the same
      content. */
  lemma StripBulletMarker(indent: string, marker: string, gap: string, content: string)
    requires AllIn(indent, Whitespace) && IsMarker(marker)
    requires gap != [] && AllIn(gap, Whitespace)
    requires content != [] && content[0] !in Whitespace
    ensures StripBullet(indent + marker + gap + content) == Strip(content)
  {
    BulletEndOf(indent, marker, gap, content);
  }

  /** The match of `BULLET_RE` on an indented marker line ends where the
      content begins. */
  lemma BulletEndOf(indent: string, marker: string, gap: string, content: string)
    requires AllIn(indent, Whitespace) && IsMarker(marker)
    requires gap != [] && AllIn(gap, Whitespace)
    requires content != [] && content[0] !in Whitespace
    ensures var s, e := indent + marker + gap + content, |indent| + |marker| + |gap|;
      e <= |s| && BulletEnd(s) == Some(e) && s[e..] == content
  {
    var s := indent + marker + gap + content;
    var a := |indent|;
    var m := a + |marker|;
    var e := m + |gap|;
    MarkerLayout(indent, marker, gap, content);
    MarkerNotSpace(marker);
    SkipInIs(s, 0, a, Whitespace);
    MarkerEndOf(s, a, marker);
    SkipInIs(s, m, e, Whitespace);
    BulletEndAt(s, a, m, e);
  }

  /** `BulletEnd` once the indentation, the marker and the gap are known. */
  lemma BulletEndAt(s: string, a: nat, m: nat, e: nat)
    requires SkipIn(s, 0, Whitespace) == a && MarkerEnd(s, a) == Some(m)
    requires m < e <= |s| && s[m] in Whitespace && SkipIn(s, m, Whitespace) == e
    ensures BulletEnd(s) == Some(e)
  {
  }

  /** Where the four pieces of a marker line lie. */
  lemma MarkerLayout(indent: string, marker: string, gap: string, content: string)
    requires marker != [] && content != []
    ensures var s := indent + marker + gap + content;
      var a, m := |indent|, |indent| + |marker|;
      var e := m + |gap|;
      && (forall k :: 0 <= k < a ==> s[k] == indent[k])
      && (forall k :: m <= k < e ==> s[k] == gap[k - m])
      && s[a..m] == marker && s[a] == marker[0]
      && s[e..] == content && s[e] == content[0]
  {
    var s := indent + marker + gap + content;
    var a := |indent|;
    var m := a + |marker|;
    var e := m + |gap|;
    assert s[a..m] == marker;
    assert s[e..] == content;
  }

  /** A marker starts with neither whitespace nor the end of the text. */
  lemma MarkerNotSpace(marker: string)
    requires IsMarker(marker)
    ensures marker != [] && marker[0] !in Whitespace
  {
    if |marker| >= 2 && AllIn(marker[..|marker| - 1], LogText.DigitChars) && marker[|marker| - 1] == '.' {
      assert marker[..|marker| - 1][0] == marker[0];
    }
  }

  /** A marker found at `b` ends where it ends. */
  lemma MarkerEndOf(s: string, b: nat, marker: string)
    requires IsMarker(marker) && b + |marker| <= |s| && s[b..b + |marker|] == marker
    ensures MarkerEnd(s, b) == Some(b + |marker|)
  {
    assert forall k :: 0 <= k < |marker| ==> s[b + k] == marker[k];
    if marker in ["[]", "[ ]", "[x]", "[ x ]"] {
      CheckboxEnd(s, b, marker);
    } else if marker in ["-", "*", "\U{2022}"] {
    } else if marker[0] == '(' {
      var d := b + |marker| - 1;
      assert forall k :: b + 1 <= k < d ==> s[k] == marker[1..|marker| - 1][k - b - 1];
      SkipInIs(s, b + 1, d, LogText.DigitChars);
    } else {
      var d := b + |marker| - 1;
      assert forall k :: b <= k < d ==> s[k] == marker[..|marker| - 1][k - b];
      SkipInIs(s, b, d, LogText.DigitChars);
    }
  }

  lemma CheckboxEnd(s: string, b: nat, marker: string)
    requires marker in ["[]", "[ ]", "[x]", "[ x ]"]
    requires b + |marker| <= |s| && forall k :: 0 <= k < |marker| ==> s[b + k] == marker[k]
    ensures MarkerEnd(s, b) == Some(b + |marker|)
  {
    assert s[b] == marker[0] == '[';
    assert s[b + |marker| - 1] == marker[|marker| - 1] == ']';
    if marker == "[]" {
      BoxEmpty(s, b, b + 1);
    } else if marker == "[ ]" {
      assert s[b + 1] == marker[1] == ' ';
      BoxEmpty(s, b, b + 2);
    } else if marker == "[x]" {
      assert s[b + 1] == marker[1] == 'x';
      BoxTicked(s, b, b + 1, b + 2);
    } else {
      assert s[b + 1] == marker[1] == ' ' && s[b + 2] == marker[2] == 'x' && s[b + 3] == marker[3] == ' ';
      BoxTicked(s, b, b + 2, b + 4);
    }
  }

  /** `[`, whitespace, `]`. */
  lemma BoxEmpty(s: string, b: nat, a: nat)
    requires b < a < |s| && s[b] == '[' && s[a] == ']'
    requires forall k :: b + 1 <= k < a ==> s[k] in Whitespace
    ensures MarkerEnd(s, b) == Some(a + 1)
  {
    SkipInIs(s, b + 1, a, Whitespace);
  }

  /** `[`, whitespace, `x`, whitespace, `]`. */
  lemma BoxTicked(s: string, b: nat, a: nat, c: nat)
    requires b < a < c < |s| && s[b] == '[' && s[a] == 'x' && s[c] == ']'
    requires forall k :: b + 1 <= k < a ==> s[k] in Whitespace
    requires forall k :: a + 1 <= k < c ==> s[k] in Whitespace
    ensures MarkerEnd(s, b) == Some(c + 1)
  {
    SkipInIs(s, b + 1, a, Whitespace);
    SkipInIs(s, a + 1, c, Whitespace);
  }

  /** A line whose first visible character is a letter has no marker: it
      is only stripped. */
  lemma StripBulletPlain(s: string)
    requires SkipIn(s, 0, Whitespace) < |s| && IsLetter(s[SkipIn(s, 0, Whitespace)])
    ensures StripBullet(s) == Strip(s)
  {
    LetterNoMarker(s, SkipIn(s, 0, Whitespace));
  }

  lemma LetterNoMarker(s: string, i: nat)
    requires i < |s| && IsLetter(s[i])
    ensures MarkerEnd(s, i) == None
  {
    assert s[i] !in {'-', '*', '\U{2022}'} && s[i] !in LogText.DigitChars;
  }

  // ---------------------------------------------------------------------
  // _norm_space: re.sub(r"\s+", " ", s).strip()

  /** `re.sub(r"\s+", " ", s[i..])`: every maximal whitespace run becomes
      one space. */
  function CollapseFrom(s: string, i: nat): (r: string)
    requires i <= |s|
    ensures r == [] <==> i == |s|
    ensures r != [] ==> (r[0] == ' ' <==> IsSpace(s[i]))
    ensures forall m :: 0 <= m < |r| ==> r[m] == ' ' || !IsSpace(r[m])
    ensures forall m :: 0 <= m < |r| - 1 ==> !(r[m] == ' ' && r[m + 1] == ' ')
    decreases |s| - i
  {
    if i == |s| then []
    else if IsSpace(s[i]) then
      var rest := CollapseFrom(s, SkipIn(s, i, Whitespace));
      assert forall m :: 1 <= m < |rest| + 1 ==> (" " + rest)[m] == rest[m - 1];
      " " + rest
    else
      var rest := CollapseFrom(s, i + 1);
      assert forall m :: 1 <= m < |rest| + 1 ==> ([s[i]] + rest)[m] == rest[m - 1];
      [s[i]] + rest
  }

  /** `_norm_space`. */
  function NormSpace(s: string): string
  {
    Strip(CollapseFrom(s, 0))
  }

  /** Single-spaced text: its only whitespace is single spaces between
      visible characters. */
  predicate SingleSpaced(t: string)
  {
    && (forall m :: 0 <= m < |t| ==> t[m] == ' ' || !IsSpace(t[m]))
    && (forall m :: 0 <= m < |t| - 1 ==> !(t[m] == ' ' && t[m + 1] == ' '))
    && (t == [] || (t[0] != ' ' && t[|t| - 1] != ' '))
  }

  /** The result of `_norm_space` has no leading, trailing or doubled
      spaces and no other whitespace. */
  lemma NormSpaceSingle(s: string)
    ensures SingleSpaced(NormSpace(s))
  {
    StripSingle(CollapseFrom(s, 0));
  }

  /** Stripping text whose whitespace is single spaces leaves it
      single-spaced. */
  lemma StripSingle(c: string)
    requires forall m :: 0 <= m < |c| ==> c[m] == ' ' || !IsSpace(c[m])
    requires forall m :: 0 <= m < |c| - 1 ==> !(c[m] == ' ' && c[m + 1] == ' ')
    ensures SingleSpaced(Strip(c))
  {
    var a := SkipIn(c, 0, Whitespace);
    var b := BackIn(c[a..], |c| - a, Whitespace);
    StripInSlice(c, Whitespace, a, b);
    StripShape(c);
    var r := Strip(c);
    assert forall m :: 0 <= m < |r| ==> r[m] == c[a + m];
    assert IsSpace(' ');
  }

  /** Single-spaced text is left as it is. */
  lemma NormSpaceFixed(t: string)
    requires SingleSpaced(t)
    ensures NormSpace(t) == t
  {
    CollapseSingle(t, 0);
    assert t[0..] == t;
    StripInOfClean(t, Whitespace);
  }

  lemma {:induction false} CollapseSingle(t: string, i: nat)
    requires SingleSpaced(t) && i <= |t|
    ensures CollapseFrom(t, i) == t[i..]
    decreases |t| - i
  {
    if i < |t| {
      if IsSpace(t[i]) {
        assert t[i] == ' ';
        assert i + 1 < |t| && t[i + 1] != ' ';
        SkipInIs(t, i, i + 1, Whitespace);
        CollapseSingle(t, i + 1);
        assert t[i..] == " " + t[i + 1..];
      } else {
        CollapseSingle(t, i + 1);
        assert t[i..] == [t[i]] + t[i + 1..];
      }
    }
  }

  /** `_norm_space` twice changes nothing more. */
  lemma NormSpaceIdempotent(s: string)
    ensures NormSpace(NormSpace(s)) == NormSpace(s)
  {
    NormSpaceSingle(s);
    NormSpaceFixed(NormSpace(s));
  }

  /** The visible characters of `s[i..]`, in order. */
  function Visible(s: string): (r: string)
    ensures forall m :: 0 <= m < |r| ==> !IsSpace(r[m])
  {
    if s == [] then [] else (if IsSpace(s[0]) then [] else [s[0]]) + Visible(s[1..])
  }

  /** Collapsing keeps the visible characters and their order. */
  lemma {:induction false} CollapseVisible(s: string, i: nat)
    requires i <= |s|
    ensures Visible(CollapseFrom(s, i)) == Visible(s[i..])
    decreases |s| - i
  {
    if i < |s| {
      var r := CollapseFrom(s, i);
      if IsSpace(s[i]) {
        var j := SkipIn(s, i, Whitespace);
        CollapseVisible(s, j);
        assert r[1..] == CollapseFrom(s, j);
        VisibleBlankPrefix(s, i, j);
      } else {
        CollapseVisible(s, i + 1);
        assert r[1..] == CollapseFrom(s, i + 1);
        assert s[i..][1..] == s[i + 1..];
      }
    }
  }

  /** A whitespace run holds no visible character. */
  lemma {:induction false} VisibleBlankPrefix(s: string, i: nat, j: nat)
    requires i <= j <= |s| && forall k :: i <= k < j ==> IsSpace(s[k])
    ensures Visible(s[i..]) == Visible(s[j..])
    decreases j - i
  {
    if i < j {
      assert s[i..][1..] == s[i + 1..];
      VisibleBlankPrefix(s, i + 1, j);
    }
  }

  /** Visible characters of a concatenation. */
  lemma {:induction false} VisibleAppend(a: string, b: string)
    ensures Visible(a + b) == Visible(a) + Visible(b)
  {
    if a != [] {
      assert (a + b)[1..] == a[1..] + b;
      VisibleAppend(a[1..], b);
    } else {
      assert a + b == b;
    }
  }

  /** `_norm_space` keeps every visible character, in order. */
  lemma NormSpaceVisible(s: string)
    ensures Visible(NormSpace(s)) == Visible(s)
  {
    CollapseVisible(s, 0);
    assert s[0..] == s;
    StripVisible(CollapseFrom(s, 0));
  }

  /** `strip` removes no visible character. */
  lemma StripVisible(c: string)
    ensures Visible(Strip(c)) == Visible(c)
  {
    var a := SkipIn(c, 0, Whitespace);
    var l := c[a..];
    VisibleBlankPrefix(c, 0, a);
    assert c[0..] == c;
    var b := BackIn(l, |l|, Whitespace);
    VisibleTakeBlank(l, b);
    assert Strip(c) == l[..b];
  }

  /** Dropping trailing whitespace drops no visible character. */
  lemma VisibleTakeBlank(t: string, i: nat)
    requires i <= |t| && forall k :: i <= k < |t| ==> IsSpace(t[k])
    ensures Visible(t[..i]) == Visible(t)
  {
    assert t == t[..i] + t[i..];
    VisibleAppend(t[..i], t[i..]);
    assert forall k :: 0 <= k < |t| - i ==> t[i..][k] == t[i + k];
    VisibleBlank(t[i..]);
  }

  /** Whitespace alone has no visible character. */
  lemma {:induction false} VisibleBlank(t: string)
    requires forall k :: 0 <= k < |t| ==> IsSpace(t[k])
    ensures Visible(t) == []
  {
    if t != [] {
      VisibleBlank(t[1..]);
    }
  }

  // ---------------------------------------------------------------------
  // _unique_preserve_order

  /** The stripped, non-empty items, each once, in the order in which they
      first occur. */
  function Unique(items: seq<string>): (r: seq<string>)
  {
    if items == [] then []
    else
      var u := Unique(items[..|items| - 1]);
      var k := Strip(items[|items| - 1]);
      if k != [] && k !in u then u + [k] else u
  }

  /** `_unique_preserve_order`: the `seen` set holds what `out` holds. */
  method UniquePreserveOrder(items: seq<string>) returns (out: seq<string>)
    ensures out == Unique(items)
  {
    var seen: set<string> := {};
    out := [];
    for i := 0 to |items|
      invariant out == Unique(items[..i])
      invariant forall x :: x in seen <==> x in out
    {
      assert items[..i + 1][..i] == items[..i];
      var k := Strip(items[i]);
      if k != [] && k !in seen {
        seen := seen + {k};
        out := out + [k];
      }
    }
    assert items[..|items|] == items;
  }

  /** A string is kept exactly when it is the non-empty strip of an item. */
  lemma {:induction false} UniqueMembers(items: seq<string>, x: string)
    ensures x in Unique(items) <==> x != [] && exists i :: 0 <= i < |items| && Strip(items[i]) == x
  {
    if items != [] {
      var init := items[..|items| - 1];
      UniqueMembers(init, x);
      OccursSnoc(items, x);
    }
  }

  /** Some item strips to `x`. */
  predicate Occurs(items: seq<string>, x: string)
  {
    exists i :: 0 <= i < |items| && Strip(items[i]) == x
  }

  /** An item strips to `x` exactly when an earlier one does or the last
      one does. */
  lemma OccursSnoc(items: seq<string>, x: string)
    requires items != []
    ensures Occurs(items, x) <==> Occurs(items[..|items| - 1], x) || Strip(items[|items| - 1]) == x
  {
    if Occurs(items[..|items| - 1], x) {
      OccursInit(items, x);
    }
    if Occurs(items, x) {
      OccursSplit(items, x);
    }
  }

  /** What strips to `x` in the front of the items still does. */
  lemma OccursInit(items: seq<string>, x: string)
    requires items != [] && Occurs(items[..|items| - 1], x)
    ensures Occurs(items, x)
  {
    var init := items[..|items| - 1];
    var i :| 0 <= i < |init| && Strip(init[i]) == x;
    assert items[i] == init[i];
  }

  /** An item that strips to `x` is in the front or is the last. */
  lemma OccursSplit(items: seq<string>, x: string)
    requires items != [] && Occurs(items, x)
    ensures Occurs(items[..|items| - 1], x) || Strip(items[|items| - 1]) == x
  {
    var init := items[..|items| - 1];
    var i :| 0 <= i < |items| && Strip(items[i]) == x;
    if i < |init| {
      assert init[i] == items[i];
    }
  }

  /** Distinct strings, each non-empty and already stripped. */
  predicate CleanDistinct(r: seq<string>)
  {
    && (forall a, b :: 0 <= a < b < |r| ==> r[a] != r[b])
    && (forall a :: 0 <= a < |r| ==> r[a] != [] && Strip(r[a]) == r[a])
  }

  /** The kept strings are distinct, non-empty and already stripped. */
  lemma {:induction false} UniqueDistinct(items: seq<string>)
    ensures CleanDistinct(Unique(items))
  {
    if items != [] {
      var init := items[..|items| - 1];
      var u := Unique(init);
      var k := Strip(items[|items| - 1]);
      UniqueDistinct(init);
      StripIdempotent(items[|items| - 1]);
      var r := Unique(items);
      if k != [] && k !in u {
        assert r == u + [k];
        forall a, b | 0 <= a < b < |r|
          ensures r[a] != r[b]
        {
          assert r[a] == u[a];
          if b == |u| {
            assert u[a] in u;
          } else {
            assert r[b] == u[b];
          }
        }
        forall a | 0 <= a < |r|
          ensures r[a] != [] && Strip(r[a]) == r[a]
        {
          if a < |u| {
            assert r[a] == u[a];
          }
        }
      } else {
        assert r == u;
      }
    }
  }

  /** Strings are kept in the order of their first occurrence: wherever a
      later one occurs, an earlier one has occurred before. */
  lemma {:induction false} UniqueOrder(items: seq<string>, a: nat, b: nat, j: nat)
    requires a < b < |Unique(items)| && j < |items| && Strip(items[j]) == Unique(items)[b]
    ensures exists i :: 0 <= i < j && Strip(items[i]) == Unique(items)[a]
  {
    var init := items[..|items| - 1];
    var u := Unique(init);
    var r := Unique(items);
    assert forall k :: 0 <= k < |u| ==> r[k] == u[k];
    if j < |init| {
      assert Strip(init[j]) == r[b];
      if b == |u| {
        UniqueMembers(init, r[b]);
        assert false;
      }
      UniqueOrder(init, a, b, j);
      var i :| 0 <= i < j && Strip(init[i]) == u[a];
      assert items[i] == init[i];
    } else {
      UniqueMembers(init, r[a]);
      var i :| 0 <= i < |init| && Strip(init[i]) == r[a];
      assert items[i] == init[i];
    }
  }

  /** Distinct, stripped, non-empty strings are kept as they are. */
  lemma {:induction false} UniqueFixed(ys: seq<string>)
    requires CleanDistinct(ys)
    ensures Unique(ys) == ys
  {
    if ys != [] {
      var init := ys[..|ys| - 1];
      UniqueFixed(init);
      assert ys[|ys| - 1] !in init;
      assert ys == init + [ys[|ys| - 1]];
    }
  }

  /** De-duplicating twice changes nothing more. */
  lemma UniqueIdempotent(items: seq<string>)
    ensures Unique(Unique(items)) == Unique(items)
  {
    UniqueDistinct(items);
    UniqueFixed(Unique(items));
  }

  // ---------------------------------------------------------------------
  // _normalize_date

  /** `re.fullmatch(r"(\d{1,2})/(\d{1,2})/(\d{2,4})", s)`: the three digit
      groups. Each group takes the whole run of digits, since a shorter
      run leaves a digit where `/` or the end must follow. */
  function SlashParts(s: string): (r: Option<(string, string, string)>)
    ensures r.Some? ==> 1 <= |r.value.0| <= 2 && 1 <= |r.value.1| <= 2 && 2 <= |r.value.2| <= 4
    ensures r.Some? ==> Digits(r.value.0) && Digits(r.value.1) && Digits(r.value.2)
  {
    var p := SkipIn(s, 0, LogText.DigitChars);
    if !(1 <= p <= 2 && p < |s| && s[p] == '/') then None
    else
      var q := SkipIn(s, p + 1, LogText.DigitChars);
      if !(1 <= q - (p + 1) <= 2 && q < |s| && s[q] == '/') then None
      else
        var e := SkipIn(s, q + 1, LogText.DigitChars);
        if !(e == |s| && 2 <= e - (q + 1) <= 4) then None
        else
          var mm, dd, yy := s[..p], s[p + 1..q], s[q + 1..];
          assert Digits(mm) && Digits(dd) && Digits(yy) by {
            assert forall k :: 0 <= k < |mm| ==> mm[k] == s[k];
            assert forall k :: 0 <= k < |dd| ==> dd[k] == s[p + 1 + k];
            assert forall k :: 0 <= k < |yy| ==> yy[k] == s[q + 1 + k];
          }
          Some((mm, dd, yy))
  }

  /** ASCII digits only. */
  predicate Digits(s: string)
  {
    forall k :: 0 <= k < |s| ==> IsDigit(s[k])
  }

  /** A two-digit year below 70 is 20YY, from 70 on 19YY; longer years are
      taken as written. */
  function FullYear(y: nat): nat
  {
    if y < 100 then (if y < 70 then y + 2000 else y + 1900) else y
  }

  /** `_normalize_date`. */
  function NormalizeDate(raw: string): (r: string)
  {
    var s := Strip(raw);
    if Dates.IsoShaped(s) then s
    else
      match SlashParts(s)
      case None => s
      case Some((mm, dd, yy)) =>
        var d := Dates.Date(FullYear(Dates.DigitsValue(yy)), Dates.DigitsValue(mm), Dates.DigitsValue(dd));
        if Dates.Valid(d) then Dates.Iso(d) else s
  }

  /** The result is the stripped input or a real date in ISO form. */
  lemma NormalizeDateResult(raw: string)
    ensures var r := NormalizeDate(raw);
      r == Strip(raw) || (Dates.IsoShaped(r) && Dates.ParseIso(r).Some?)
  {
    var s := Strip(raw);
    if !Dates.IsoShaped(s) && SlashParts(s).Some? {
      var (mm, dd, yy) := SlashParts(s).value;
      var d := Dates.Date(FullYear(Dates.DigitsValue(yy)), Dates.DigitsValue(mm), Dates.DigitsValue(dd));
      if Dates.Valid(d) {
        Dates.ParseIsoOfIso(d);
      }
    }
  }

  /** Two-digit years fall in 1970..2069, and every year of that window
      comes back from its last two digits. */
  lemma FullYearWindow(y: nat)
    ensures y < 100 ==> 1970 <= FullYear(y) <= 2069
    ensures 1970 <= y <= 2069 ==> FullYear(y % 100) == y
  {
  }

  /** `M/D/YY` (or `M/D/YYYY`) as a US writer gives a date. */
  function SlashDate(d: Dates.Date, wide: bool): string
    requires Dates.Valid(d)
  {
    Dates.Decimal(d.month) + "/" + Dates.Decimal(d.day) + "/"
      + (if wide then Dates.Pad(d.year, 4) else Dates.Pad(d.year % 100, 2))
  }

  /** A date written `M/D/YY` within 1970..2069, or `M/D/YYYY` from year
      100 on, normalises to its ISO form. */
  lemma NormalizeSlashDate(d: Dates.Date, wide: bool)
    requires Dates.Valid(d)
    requires if wide then d.year >= 100 else 1970 <= d.year <= 2069
    ensures NormalizeDate(SlashDate(d, wide)) == Dates.Iso(d)
  {
    var m := Dates.Decimal(d.month);
    var dd := Dates.Decimal(d.day);
    var y := if wide then Dates.Pad(d.year, 4) else Dates.Pad(d.year % 100, 2);
    SmallDecimal(d.month);
    SmallDecimal(d.day);
    Dates.DecimalValue(d.month);
    Dates.DecimalValue(d.day);
    SlashYear(d.year, wide);
    SlashLayout(m, dd, y, SlashDate(d, wide));
    NormalizeDateOf(SlashDate(d, wide), m, dd, y, d);
  }

  /** The year group of `SlashDate` reads back as the year. */
  lemma SlashYear(year: int, wide: bool)
    requires if wide then 100 <= year <= 9999 else 1970 <= year <= 2069
    ensures var y := if wide then Dates.Pad(year, 4) else Dates.Pad(year % 100, 2);
      Digits(y) && 2 <= |y| <= 4 && FullYear(Dates.DigitsValue(y)) == year
  {
    if wide { Dates.PadValue(year, 4); } else { Dates.PadValue(year % 100, 2); }
  }

  /** A text of the shape `M/D/Y` whose groups name a real date normalises
      to that date. */
  lemma NormalizeDateOf(s: string, mm: string, dd: string, yy: string, d: Dates.Date)
    requires s != [] && s[0] !in Whitespace && s[|s| - 1] !in Whitespace
    requires !Dates.IsoShaped(s) && SlashParts(s) == Some((mm, dd, yy))
    requires d == Dates.Date(FullYear(Dates.DigitsValue(yy)), Dates.DigitsValue(mm), Dates.DigitsValue(dd))
    requires Dates.Valid(d)
    ensures NormalizeDate(s) == Dates.Iso(d)
  {
    StripInOfClean(s, Whitespace);
  }

  /** Days and months have one or two digits. */
  lemma SmallDecimal(n: nat)
    requires n < 100
    ensures 1 <= |Dates.Decimal(n)| <= 2
  {
  }

  /** Where the groups of `M/D/Y` lie. */
  lemma SlashLayout(m: string, dd: string, y: string, s: string)
    requires Digits(m) && Digits(dd) && Digits(y)
    requires 1 <= |m| <= 2 && 1 <= |dd| <= 2 && 2 <= |y| <= 4
    requires s == m + "/" + dd + "/" + y
    ensures s != [] && s[0] !in Whitespace && s[|s| - 1] !in Whitespace
    ensures !Dates.IsoShaped(s)
    ensures SlashParts(s) == Some((m, dd, y))
  {
    SlashEnds(m, dd, y, s);
    SlashGroups(m, dd, y, s);
  }

  lemma SlashEnds(m: string, dd: string, y: string, s: string)
    requires Digits(m) && Digits(dd) && Digits(y)
    requires 1 <= |m| <= 2 && 1 <= |dd| <= 2 && 2 <= |y| <= 4
    requires s == m + "/" + dd + "/" + y
    ensures s != [] && s[0] !in Whitespace && s[|s| - 1] !in Whitespace
    ensures !Dates.IsoShaped(s)
  {
    assert s[0] == m[0] && s[|s| - 1] == y[|y| - 1];
    if |s| == 10 {
      assert |m| == 2 && |dd| == 2;
      assert s[4] == dd[1];
    }
  }

  lemma SlashGroups(m: string, dd: string, y: string, s: string)
    requires Digits(m) && Digits(dd) && Digits(y)
    requires 1 <= |m| <= 2 && 1 <= |dd| <= 2 && 2 <= |y| <= 4
    requires s == m + "/" + dd + "/" + y
    ensures SlashParts(s) == Some((m, dd, y))
  {
    var p := |m|;
    var q := p + 1 + |dd|;
    assert s[..p] == m by {
      assert forall k :: 0 <= k < p ==> s[..p][k] == m[k];
    }
    assert s[p + 1..q] == dd by {
      assert forall k :: 0 <= k < |dd| ==> s[p + 1..q][k] == dd[k];
    }
    assert s[q + 1..] == y by {
      assert forall k :: 0 <= k < |y| ==> s[q + 1..][k] == y[k];
    }
    SlashDigits(s, m, 0, p);
    SlashDigits(s, dd, p + 1, q);
    SlashDigits(s, y, q + 1, |s|);
    SlashPartsAt(s, p, q);
  }

  /** The groups `SlashParts` finds once the digit runs are known. */
  lemma SlashPartsAt(s: string, p: nat, q: nat)
    requires p < q < |s| && s[p] == '/' && s[q] == '/'
    requires SkipIn(s, 0, LogText.DigitChars) == p && 1 <= p <= 2
    requires SkipIn(s, p + 1, LogText.DigitChars) == q && 1 <= q - (p + 1) <= 2
    requires SkipIn(s, q + 1, LogText.DigitChars) == |s| && 2 <= |s| - (q + 1) <= 4
    ensures SlashParts(s) == Some((s[..p], s[p + 1..q], s[q + 1..]))
  {
  }

  /** A run of digits that ends the text or is followed by another
      character is skipped whole. */
  lemma SlashDigits(s: string, g: string, i: nat, j: nat)
    requires i <= j <= |s| && s[i..j] == g && Digits(g)
    requires j < |s| ==> s[j] == '/'
    ensures SkipIn(s, i, LogText.DigitChars) == j
  {
    assert forall k :: i <= k < j ==> s[k] == g[k - i];
    SkipInIs(s, i, j, LogText.DigitChars);
  }

  /** An impossible date such as February 30 comes back as written. */
  lemma NormalizeImpossibleDate()
    ensures NormalizeDate("2/30/25") == "2/30/25"
  {
    assert "2/30/25" == "2" + "/" + "30" + "/" + "25";
    assert Dates.DigitsValue("30") == 30 && Dates.DigitsValue("2") == 2 && Dates.DigitsValue("25") == 25;
    assert !Dates.Valid(Dates.Date(2025, 2, 30));
    SlashInvalid("2", "30", "25");
  }

  /** `M/D/Y` whose groups name no real date is kept as written. */
  lemma SlashInvalid(m: string, dd: string, y: string)
    requires Digits(m) && Digits(dd) && Digits(y)
    requires 1 <= |m| <= 2 && 1 <= |dd| <= 2 && 2 <= |y| <= 4
    requires !Dates.Valid(Dates.Date(FullYear(Dates.DigitsValue(y)), Dates.DigitsValue(m), Dates.DigitsValue(dd)))
    ensures NormalizeDate(m + "/" + dd + "/" + y) == m + "/" + dd + "/" + y
  {
    var s := m + "/" + dd + "/" + y;
    SlashLayout(m, dd, y, s);
    NormalizeDateInvalid(s, m, dd, y);
  }

  /** A text of the shape `M/D/Y` whose groups name no real date is kept. */
  lemma NormalizeDateInvalid(s: string, mm: string, dd: string, yy: string)
    requires s != [] && s[0] !in Whitespace && s[|s| - 1] !in Whitespace
    requires !Dates.IsoShaped(s) && SlashParts(s) == Some((mm, dd, yy))
    requires !Dates.Valid(Dates.Date(FullYear(Dates.DigitsValue(yy)), Dates.DigitsValue(mm), Dates.DigitsValue(dd)))
    ensures NormalizeDate(s) == s
  {
    StripInOfClean(s, Whitespace);
  }
}
