/**
 * The parsing side of the packaged CLI, src/team_digest/team_email_digest.py:
 * `##` sections matched by exact name, `-`/`*` bullets, the `[high]`,
 * `[medium]` and `[low]` priority tags with `medium` as the default, the
 * owner guessed from the words before " to ", one day's document, the
 * priority buckets and the merge of several days.
 *
 * `H2_RX`, `BULLET_RX` and `PRIO_RX` are written out as scanners that follow
 * the backtracking each pattern admits; letters compare ASCII
 * case-insensitively.
 */
module PackagedParse {
  import opened Wrappers
  import opened Text
  import opened Sections
  import opened Sorting
  import Dates
  import LogText
  import PackagedLogs

  // ---------------------------------------------------------------------
  // H2_RX = ^\s*##\s*(.+?)\s*$ under re.M

  /** `H2_RX` tried at `q`. The leading `\s*` must stop right before `##`;
      the `\s*` after it may run over line breaks, and gives back
      characters until a character other than a newline is left for the
      group. The lazy group ends as soon as only whitespace is left on its
      line, and the trailing `\s*$` runs on to the last line break of the
      following whitespace (or the end of the text). */
  function H2At(t: string, q: nat): (r: Option<LogText.Heading>)
    requires q <= |t|
    ensures r.Some? ==> r.value.start == q < r.value.end <= |t|
    ensures r.Some? ==> r.value.end == |t| || t[r.value.end] == '\n'
  {
    var h := SkipIn(t, q, Whitespace);
    if !(h + 2 <= |t| && t[h] == '#' && t[h + 1] == '#') then None
    else
      var w := SkipIn(t, h + 2, Whitespace);
      var k := if w < |t| then w + 1 else BackIn(t, |t|, {'\n'});
      if k <= h + 2 then None
      else
        var j := k - 1;
        assert t[j] != '\n';
        var l := SkipOut(t, j + 1, {'\n'});
        var g := if BackIn(t, l, Whitespace) < j + 1 then j + 1 else BackIn(t, l, Whitespace);
        var e := GroupEnd(t, g, l);
        Some(LogText.Heading(q, e, t[j..g]))
  }

  /** Where `\s*$` ends once the group ends at `g` with only whitespace up
      to the line end `l`: the last line break of the whitespace run from
      `g`, or the end of the text when the run reaches it. */
  function GroupEnd(t: string, g: nat, l: nat): (e: nat)
    requires g <= l <= |t| && (l == |t| || t[l] == '\n')
    requires forall m :: g <= m < l ==> t[m] in Whitespace
    ensures l <= e <= |t| && (e == |t| || t[e] == '\n')
  {
    var run := SkipIn(t, g, Whitespace);
    if run == |t| then |t|
    else
      assert l < run;
      var b := BackIn(t, run, Whitespace - {'\n'});
      assert t[l] !in Whitespace - {'\n'};
      b - 1
  }

  /** `H2_RX.finditer(t)` from position `q`: each search starts where the
      last match ended. */
  function H2sFrom(t: string, q: nat): (r: seq<LogText.Heading>)
    requires q <= |t|
    ensures LogText.WellPlaced(t, r)
    ensures forall k :: 0 <= k < |r| ==> q <= r[k].start
    decreases |t| - q
  {
    if q == |t| then []
    else if LogText.LineStart(t, q) && H2At(t, q).Some? then
      var m := H2At(t, q).value;
      var rest := H2sFrom(t, m.end);
      ConsPlaced(t, m, rest);
      [m] + rest
    else H2sFrom(t, q + 1)
  }

  /** A match placed before a run of well-placed matches keeps them
      well placed. */
  lemma ConsPlaced(t: string, m: LogText.Heading, rest: seq<LogText.Heading>)
    requires m.start < m.end <= |t| && LogText.WellPlaced(t, rest)
    requires forall k :: 0 <= k < |rest| ==> m.end <= rest[k].start
    ensures LogText.WellPlaced(t, [m] + rest)
  {
    var r := [m] + rest;
    assert forall k :: 1 <= k < |r| ==> r[k] == rest[k - 1];
  }

  function H2s(t: string): (hs: seq<LogText.Heading>)
    ensures LogText.WellPlaced(t, hs)
  {
    H2sFrom(t, 0)
  }

  /** A `##` line with the name padded by whitespace is a match whose
      group is the bare name... */
  lemma H2Padded(t: string)
    requires t == "  ##  Risks \n"
    ensures H2At(t, 0) == Some(LogText.Heading(0, 13, "Risks"))
  {
    SkipInIs(t, 0, 2, Whitespace);
    SkipInIs(t, 4, 6, Whitespace);
    SkipOutIs(t, 7, 12, {'\n'});
    assert BackIn(t, 12, Whitespace) == 11 by {
      assert t[11] in Whitespace && t[10] !in Whitespace;
    }
    assert SkipIn(t, 11, Whitespace) == 13 by { SkipInIs(t, 11, 13, Whitespace); }
    assert t[6..11] == "Risks";
  }

  /** ...a `###` line is a match too, whose group keeps the third `#`... */
  lemma H2Deeper(t: string)
    requires t == "### Risks"
    ensures H2At(t, 0) == Some(LogText.Heading(0, 9, "# Risks"))
  {
    SkipInIs(t, 0, 0, Whitespace);
    SkipInIs(t, 2, 2, Whitespace);
    SkipOutIs(t, 3, 9, {'\n'});
    assert BackIn(t, 9, Whitespace) == 9;
    assert t[2..9] == "# Risks";
  }

  /** ...and a `##` with nothing after it on the line takes the next line
      as its group. */
  lemma H2NextLine(t: string)
    requires t == "##\nRisks"
    ensures H2At(t, 0) == Some(LogText.Heading(0, 8, "Risks"))
  {
    SkipInIs(t, 0, 0, Whitespace);
    SkipInIs(t, 2, 3, Whitespace);
    SkipOutIs(t, 4, 8, {'\n'});
    assert BackIn(t, 8, Whitespace) == 8;
    assert t[3..8] == "Risks";
  }

  // ---------------------------------------------------------------------
  // extract_sections

  /** `sec_name in sections`: the section whose name is exactly `name`. */
  function ExactSection(name: string): (r: Option<SectionName>)
    ensures forall c :: r == Some(c) <==> Title(c) == name
  {
    if name == "Summary" then Some(Summary)
    else if name == "Decisions" then Some(Decisions)
    else if name == "Actions" then Some(Actions)
    else if name == "Risks" then Some(Risks)
    else if name == "Dependencies" then Some(Dependencies)
    else if name == "Notes" then Some(Notes)
    else None
  }

  /** The section a match names: its stripped group, matched exactly. */
  function H2Section(h: LogText.Heading): Option<SectionName>
  {
    ExactSection(Strip(h.name))
  }

  /** `ln.strip()` is truthy. */
  predicate NonBlank(ln: string) { Strip(ln) != [] }

  /** `[ln.rstrip() for ln in body.splitlines() if ln.strip()]`. */
  function KeptLines(body: string): (r: seq<string>)
  {
    Map(Filter(SplitLines(body), NonBlank), RStrip)
  }

  /** The lines kept for match `i`: the text from its end to the start of
      the next match (or the end of the text), newlines stripped from both
      ends. */
  function H2Body(t: string, hs: seq<LogText.Heading>, i: nat): seq<string>
    requires i < |hs| && LogText.WellPlaced(t, hs)
  {
    var stop := if i + 1 < |hs| then hs[i + 1].start else |t|;
    KeptLines(StripIn(t[hs[i].end..stop], {'\n'}))
  }

  /** The section each match names, in order. */
  function Named(hs: seq<LogText.Heading>): (ns: seq<Option<SectionName>>)
    ensures |ns| == |hs|
  {
    Map(hs, H2Section)
  }

  /** The last of the first `n` matches that names `c`. */
  function LastNaming(ns: seq<Option<SectionName>>, c: SectionName, n: nat): (r: Option<nat>)
    requires n <= |ns|
    ensures r.Some? ==> r.value < n && ns[r.value] == Some(c)
    ensures r.Some? ==> forall j :: r.value < j < n ==> ns[j] != Some(c)
    ensures r.None? ==> forall j :: 0 <= j < n ==> ns[j] != Some(c)
  {
    if n == 0 then None
    else if ns[n - 1] == Some(c) then Some(n - 1)
    else LastNaming(ns, c, n - 1)
  }

  /** The value section `c` holds once the first `n` matches are
      processed: the body of the last match named `c`, or `initial`. */
  function Latest<B>(ns: seq<Option<SectionName>>, bodies: seq<B>, initial: B, c: SectionName, n: nat): B
    requires n <= |ns| == |bodies|
  {
    match LastNaming(ns, c, n)
    case None => initial
    case Some(i) => bodies[i]
  }

  /** The dictionary after the first `n` matches: every section, each with
      its latest value. */
  function Assigned<B>(ns: seq<Option<SectionName>>, bodies: seq<B>, initial: B, n: nat): (r: map<SectionName, B>)
    requires n <= |ns| == |bodies|
    ensures forall c :: c in r && r[c] == Latest(ns, bodies, initial, c, n)
  {
    AllInOrder();
    map c: SectionName | c in Order :: Latest(ns, bodies, initial, c, n)
  }

  /** `m` holds, for every section, its value after the first `n` matches. */
  predicate Holds<B(==)>(ns: seq<Option<SectionName>>, bodies: seq<B>, initial: B, n: nat, m: map<SectionName, B>)
    requires n <= |ns| == |bodies|
  {
    forall c :: c in m && m[c] == Latest(ns, bodies, initial, c, n)
  }

  /** The dictionary after one more match, entry by entry. */
  lemma LatestUpdate<B>(ns: seq<Option<SectionName>>, bodies: seq<B>, initial: B, n: nat, next: nat,
                        before: map<SectionName, B>, named: Option<SectionName>, body: B, after: map<SectionName, B>)
    requires n < |ns| == |bodies| && next == n + 1 && named == ns[n] && body == bodies[n]
    requires Holds(ns, bodies, initial, n, before)
    requires after == if named.Some? then before[named.value := body] else before
    ensures Holds(ns, bodies, initial, next, after)
  {
    forall c ensures c in after && after[c] == Latest(ns, bodies, initial, c, n + 1) {
      LatestStep(ns, bodies, initial, n, c);
    }
  }

  /** One more match: the section it names takes its body, every other
      section keeps its value. */
  lemma LatestStep<B>(ns: seq<Option<SectionName>>, bodies: seq<B>, initial: B, n: nat, c: SectionName)
    requires n < |ns| == |bodies|
    ensures Latest(ns, bodies, initial, c, n + 1) ==
      if ns[n] == Some(c) then bodies[n] else Latest(ns, bodies, initial, c, n)
  {
  }

  /** The kept lines of every match, in order. */
  function Bodies(t: string, hs: seq<LogText.Heading>): (bs: seq<seq<string>>)
    requires LogText.WellPlaced(t, hs)
    ensures |bs| == |hs|
    ensures forall i :: 0 <= i < |hs| ==> bs[i] == H2Body(t, hs, i)
  {
    seq(|hs|, i requires 0 <= i < |hs| => H2Body(t, hs, i))
  }

  /** What `extract_sections(text)` returns: all six sections, each holding
      the kept lines of the last `##` line naming it exactly. */
  function ExtractedSections(t: string): (r: map<SectionName, seq<string>>)
    ensures forall c :: c in r
  {
    var hs := H2s(t);
    Assigned(Named(hs), Bodies(t, hs), [], |hs|)
  }

  /** `extract_sections`: every section starts empty; for each match in
      turn, an exact section name takes the kept lines of its body. */
  method ExtractSections(t: string) returns (sections: map<SectionName, seq<string>>)
    ensures sections == ExtractedSections(t)
  {
    var hs := H2s(t);
    ghost var ns, bodies := Named(hs), Bodies(t, hs);
    ghost var none: seq<string> := [];
    sections := map c: SectionName | c in Order :: [];
    AllInOrder();
    if hs == [] {
      SameEntries(sections, ExtractedSections(t));
      return;
    }
    var i := 0;
    while i < |hs|
      invariant 0 <= i <= |hs|
      invariant Holds(ns, bodies, none, i, sections)
    {
      var named, body := MatchEntry(t, hs, i);
      ghost var before := sections;
      if named.Some? {
        sections := sections[named.value := body];
      }
      var next := i + 1;
      LatestUpdate(ns, bodies, none, i, next, before, named, body, sections);
      i := next;
    }
    SameEntries(sections, ExtractedSections(t));
  }

  /** One turn of `extract_sections`'s loop: the stripped group of match
      `i` looked up among the section names, and the kept lines of the
      text up to the next match. */
  method MatchEntry(t: string, hs: seq<LogText.Heading>, i: nat) returns (named: Option<SectionName>, body: seq<string>)
    requires i < |hs| && LogText.WellPlaced(t, hs)
    ensures named == Named(hs)[i] && body == Bodies(t, hs)[i]
  {
    var name := Strip(hs[i].name);
    var stop := if i + 1 < |hs| then hs[i + 1].start else |t|;
    body := KeptLines(StripIn(t[hs[i].end..stop], {'\n'}));
    named := ExactSection(name);
  }

  /** Two dictionaries over all sections with the same entries are equal. */
  lemma SameEntries<B>(a: map<SectionName, B>, b: map<SectionName, B>)
    requires forall c :: c in a && c in b && a[c] == b[c]
    ensures a == b
  {
    assert a.Keys == b.Keys;
  }

  /** A section no `##` line names exactly holds no lines. */
  lemma ExtractedSectionAbsent(t: string, c: SectionName)
    requires forall i :: 0 <= i < |H2s(t)| ==> H2Section(H2s(t)[i]) != Some(c)
    ensures ExtractedSections(t)[c] == []
  {
    var hs := H2s(t);
    var ns := Named(hs);
    assert forall i :: 0 <= i < |hs| ==> ns[i] != Some(c);
    assert LastNaming(ns, c, |hs|).None?;
  }

  /** A section holds the kept lines of the last `##` line whose stripped
      text is exactly its name; every `##` line, whatever its text, ends
      the body before it. */
  lemma ExtractedSectionLastWins(t: string, c: SectionName, i: nat)
    requires i < |H2s(t)| && H2Section(H2s(t)[i]) == Some(c)
    requires forall j :: i < j < |H2s(t)| ==> H2Section(H2s(t)[j]) != Some(c)
    ensures ExtractedSections(t)[c] == H2Body(t, H2s(t), i)
  {
    var hs := H2s(t);
    LastNamingIs(Named(hs), c, |hs|, i);
  }

  /** The last entry naming `c` is the one no later entry names `c` after. */
  lemma {:induction false} LastNamingIs(ns: seq<Option<SectionName>>, c: SectionName, n: nat, i: nat)
    requires i < n <= |ns| && ns[i] == Some(c)
    requires forall j :: i < j < n ==> ns[j] != Some(c)
    ensures LastNaming(ns, c, n) == Some(i)
  {
    if n - 1 != i {
      LastNamingIs(ns, c, n - 1, i);
    }
  }

  /** Every kept line holds a non-space character, ends in one, and holds
      no line break. */
  lemma KeptLinesClean(body: string)
    ensures forall x :: x in KeptLines(body) ==> x != [] && RStrip(x) == x && !IsSpace(x[|x| - 1])
  {
    var ls := Filter(SplitLines(body), NonBlank);
    forall x | x in KeptLines(body) ensures x != [] && RStrip(x) == x && !IsSpace(x[|x| - 1]) {
      var k :| 0 <= k < |ls| && x == RStrip(ls[k]);
      assert ls[k] in ls;
      FilterMembers(SplitLines(body), NonBlank, ls[k]);
      RStripClean(ls[k]);
    }
  }

  /** A line that is not blank right-strips to text ending in a non-space,
      which right-strips to itself. */
  lemma RStripClean(ln: string)
    requires Strip(ln) != []
    ensures var r := RStrip(ln); r != [] && !IsSpace(r[|r| - 1]) && RStrip(r) == r
  {
    var b := BackIn(ln, |ln|, Whitespace);
    var a := SkipIn(ln, 0, Whitespace);
    assert RStrip(ln) == ln[..b];
    assert a < |ln| && ln[a] !in Whitespace;
    assert a < b;
    var r := ln[..b];
    assert BackIn(r, |r|, Whitespace) == |r| by { BackInIs(r, |r|, |r|, Whitespace); }
  }

  // ---------------------------------------------------------------------
  // BULLET_RX = ^\s*[-*]\s+(.*\S)\s*$, extract_bullets

  /** `BULLET_RX.match(ln)`: the group, when the line is a bullet. The
      `\s+` after the marker is greedy; the group runs to the last
      non-space character of the line it starts on. */
  function BulletMatch(ln: string): (r: Option<string>)
    ensures r.Some? ==> r.value != [] && !IsSpace(r.value[0]) && !IsSpace(r.value[|r.value| - 1])
  {
    var a := SkipIn(ln, 0, Whitespace);
    if a == |ln| || ln[a] !in {'-', '*'} then None
    else
      var b := SkipIn(ln, a + 1, Whitespace);
      if b == a + 1 || b == |ln| then None
      else
        var l := SkipOut(ln, b, {'\n'});
        assert ln[b] != '\n';
        var e := BackIn(ln, l, Whitespace);
        assert b < e && ln[b..e][0] == ln[b] && ln[b..e][e - b - 1] == ln[e - 1];
        Some(ln[b..e])
  }

  /** `m.group(1).strip()` of a bullet line. */
  function BulletText(ln: string): Option<string>
  {
    match BulletMatch(ln)
    case None => None
    case Some(g) => Some(Strip(g))
  }

  /** The group already starts and ends with non-space characters, so
      `strip()` leaves it as it is. */
  lemma BulletTextIsGroup(ln: string)
    ensures BulletText(ln) == BulletMatch(ln)
  {
    if BulletMatch(ln).Some? {
      StripInOfClean(BulletMatch(ln).value, Whitespace);
    }
  }

  /** What `extract_bullets(lines)` returns. */
  function Bullets(lines: seq<string>): seq<string>
  {
    if lines == [] then []
    else
      var init := Bullets(lines[..|lines| - 1]);
      match BulletText(lines[|lines| - 1])
      case None => init
      case Some(b) => init + [b]
  }

  /** `extract_bullets`: the stripped group of every bullet line, in order. */
  method ExtractBullets(lines: seq<string>) returns (norm: seq<string>)
    ensures norm == Bullets(lines)
  {
    norm := [];
    var i := 0;
    while i < |lines|
      invariant 0 <= i <= |lines|
      invariant norm == Bullets(lines[..i])
    {
      assert lines[..i + 1][..i] == lines[..i];
      var m := BulletMatch(lines[i]);
      if m.Some? {
        norm := norm + [Strip(m.value)];
      }
      i := i + 1;
    }
    assert lines[..i] == lines;
  }

  /** Bullets are the texts of bullet lines only, one per line at most, each
      non-empty and stripped. */
  lemma {:induction false} BulletsClean(lines: seq<string>)
    ensures |Bullets(lines)| <= |lines|
    ensures forall x :: x in Bullets(lines) ==> x != [] && Strip(x) == x
    ensures (forall k :: 0 <= k < |lines| ==> BulletMatch(lines[k]).None?) ==> Bullets(lines) == []
  {
    BulletsItemsClean(lines);
    BulletsNone(lines);
  }

  /** At most one item per line, each non-empty and stripped. */
  lemma {:induction false} BulletsItemsClean(lines: seq<string>)
    ensures |Bullets(lines)| <= |lines|
    ensures forall x :: x in Bullets(lines) ==> x != [] && Strip(x) == x
  {
    if lines != [] {
      var init, last := lines[..|lines| - 1], lines[|lines| - 1];
      BulletsItemsClean(init);
      if BulletText(last).Some? {
        BulletTextIsGroup(last);
        StripInOfClean(BulletMatch(last).value, Whitespace);
        CleanSnoc(Bullets(init), BulletText(last).value);
      }
    }
  }

  /** Appending a clean item keeps every item clean. */
  lemma CleanSnoc(xs: seq<string>, y: string)
    requires forall x :: x in xs ==> x != [] && Strip(x) == x
    requires y != [] && Strip(y) == y
    ensures forall x :: x in xs + [y] ==> x != [] && Strip(x) == x
  {
  }

  /** No bullet line, no items. */
  lemma {:induction false} BulletsNone(lines: seq<string>)
    ensures (forall k :: 0 <= k < |lines| ==> BulletMatch(lines[k]).None?) ==> Bullets(lines) == []
  {
    if lines != [] {
      var init := lines[..|lines| - 1];
      BulletsNone(init);
      BulletTextIsGroup(lines[|lines| - 1]);
      assert forall k :: 0 <= k < |init| ==> init[k] == lines[k];
    }
  }

  /** A line made of optional indentation, a `-` or `*`, whitespace and a
      text that starts and ends with non-space characters and holds no
      newline, followed by optional trailing whitespace, yields exactly
      that text. */
  lemma BulletLine(indent: string, marker: char, gap: string, text: string, trail: string)
    requires AllIn(indent, Whitespace) && marker in {'-', '*'}
    requires gap != [] && AllIn(gap, Whitespace)
    requires text != [] && !IsSpace(text[0]) && !IsSpace(text[|text| - 1]) && '\n' !in text
    requires AllIn(trail, Whitespace - {'\n'})
    ensures BulletText(indent + [marker] + gap + text + trail) == Some(text)
  {
    var head := indent + [marker] + gap;
    var ln := head + text + trail;
    BulletHead(indent, marker, gap, text + trail);
    assert head + (text + trail) == ln;
    BulletTail(head, text, trail);
    BulletTextIsGroup(ln);
  }

  /** The marker and the whitespace around it, up to where the text
      starts. */
  lemma BulletHead(indent: string, marker: char, gap: string, rest: string)
    requires AllIn(indent, Whitespace) && marker !in Whitespace
    requires gap != [] && AllIn(gap, Whitespace)
    requires rest != [] && rest[0] !in Whitespace
    ensures var ln := indent + [marker] + gap + rest;
      SkipIn(ln, 0, Whitespace) == |indent| && ln[|indent|] == marker
      && SkipIn(ln, |indent| + 1, Whitespace) == |indent| + 1 + |gap|
  {
    SkipAround(indent, marker, gap, rest, Whitespace);
  }

  /** The same for any set of skipped characters. */
  lemma SkipAround(indent: string, marker: char, gap: string, rest: string, cs: set<char>)
    requires AllIn(indent, cs) && marker !in cs
    requires AllIn(gap, cs)
    requires rest != [] && rest[0] !in cs
    ensures var ln := indent + [marker] + gap + rest;
      SkipIn(ln, 0, cs) == |indent| && ln[|indent|] == marker
      && SkipIn(ln, |indent| + 1, cs) == |indent| + 1 + |gap|
  {
    var ln := indent + [marker] + gap + rest;
    var a := |indent|;
    var b := a + 1 + |gap|;
    assert ln[a] == marker;
    SkipInIs(ln, 0, a, cs);
    assert ln[b] == rest[0];
    SkipInIs(ln, a + 1, b, cs);
  }

  /** The text runs to the end of the line, less the trailing
      whitespace. */
  lemma BulletTail(head: string, text: string, trail: string)
    requires text != [] && text[|text| - 1] !in Whitespace && '\n' !in text
    requires AllIn(trail, Whitespace - {'\n'})
    ensures var ln := head + text + trail;
      SkipOut(ln, |head|, {'\n'}) == |ln| && BackIn(ln, |ln|, Whitespace) == |head| + |text|
      && ln[|head|..|head| + |text|] == text
  {
    var ln := head + text + trail;
    var b, e := |head|, |head| + |text|;
    assert forall m :: b <= m < e ==> ln[m] == text[m - b];
    assert forall m :: e <= m < |ln| ==> ln[m] == trail[m - e];
    SkipOutIs(ln, b, |ln|, {'\n'});
    assert ln[e - 1] == text[|text| - 1];
    BackInIs(ln, |ln|, e, Whitespace);
    assert ln[b..e] == text;
  }

  /** The marker must be `-` or `*` and be followed by whitespace. */
  lemma NotBullets()
    ensures BulletMatch("-x").None? && BulletMatch("+ x").None? && BulletMatch("- ").None?
  {
    assert SkipIn("-x", 1, Whitespace) == 1;
    assert SkipIn("+ x", 0, Whitespace) == 0;
    assert SkipIn("- ", 1, Whitespace) == 2;
  }

  // ---------------------------------------------------------------------
  // PRIO_RX = \[(high|medium|low)\] under re.I, infer_priority

  /** The three priorities `infer_priority` returns. */
  datatype Priority = High | Medium | Low

  /** The tag word, as `m.group(1).lower()` gives it. */
  function Word(p: Priority): string
  {
    match p
    case High => "high"
    case Medium => "medium"
    case Low => "low"
  }

  /** `[word]` at `i`, letters in any case. */
  predicate TagFor(s: string, i: nat, p: Priority)
  {
    var n := |Word(p)|;
    i + n + 2 <= |s| && s[i] == '[' && Lower(s[i + 1..i + 1 + n]) == Word(p) && s[i + 1 + n] == ']'
  }

  /** `PRIO_RX` matched at `i`. */
  function TagAt(s: string, i: nat): (r: Option<Priority>)
    ensures r.Some? ==> TagFor(s, i, r.value)
    ensures r.None? ==> forall p :: !TagFor(s, i, p)
  {
    if TagFor(s, i, High) then Some(High)
    else if TagFor(s, i, Medium) then Some(Medium)
    else if TagFor(s, i, Low) then Some(Low)
    else None
  }

  /** `PRIO_RX.search(s, i)`: the leftmost position of a tag. */
  function FirstTag(s: string, i: nat): (r: Option<nat>)
    requires i <= |s|
    ensures r.Some? ==> i <= r.value < |s| && TagAt(s, r.value).Some?
    ensures r.Some? ==> forall m :: i <= m < r.value ==> TagAt(s, m).None?
    ensures r.None? ==> forall m :: i <= m <= |s| ==> TagAt(s, m).None?
    decreases |s| - i
  {
    if i == |s| then None
    else if TagAt(s, i).Some? then Some(i)
    else FirstTag(s, i + 1)
  }

  /** `infer_priority`: the word of the first tag, lower-cased, else
      `medium`. */
  function InferPriority(text: string): Priority
  {
    match FirstTag(text, 0)
    case None => Medium
    case Some(k) => TagAt(text, k).value
  }

  /** The first tag decides... */
  lemma InferPriorityTagged(text: string, k: nat, p: Priority)
    requires TagFor(text, k, p)
    requires forall m :: 0 <= m < k ==> TagAt(text, m).None?
    ensures InferPriority(text) == p
  {
    assert TagAt(text, k).Some?;
    var f := FirstTag(text, 0);
    assert f.Some? && f.value == k;
    TagsDiffer(text, k, p, TagAt(text, k).value);
  }

  /** ...one place holds at most one tag... */
  lemma TagsDiffer(s: string, i: nat, p: Priority, q: Priority)
    requires TagFor(s, i, p) && TagFor(s, i, q)
    ensures p == q
  {
    var n := |Word(p)|;
    var m := |Word(q)|;
    assert Lower(s[i + 1..i + 1 + n])[0] == Word(p)[0];
    assert Lower(s[i + 1..i + 1 + m])[0] == Word(q)[0];
    assert s[i + 1..i + 1 + n][0] == s[i + 1..i + 1 + m][0];
  }

  /** ...and text without a tag is `medium`. */
  lemma InferPriorityUntagged(text: string)
    requires forall m, p :: 0 <= m <= |text| ==> !TagFor(text, m, p)
    ensures InferPriority(text) == Medium
  {
  }

  /** The first tag wins, in any letter case and whatever follows it. */
  lemma InferPriorityFirstWins(pre: string, tag: string, p: Priority, rest: string)
    requires '[' !in pre && Lower(tag) == Word(p)
    ensures InferPriority(pre + "[" + tag + "]" + rest) == p
  {
    var s := pre + "[" + tag + "]" + rest;
    var k := |pre|;
    assert s[k + 1..k + 1 + |tag|] == tag;
    assert TagFor(s, k, p);
    forall m | 0 <= m < k ensures TagAt(s, m).None? {
      assert s[m] == pre[m];
    }
    InferPriorityTagged(s, k, p);
  }

  /** Text without a `[` is `medium`. */
  lemma InferPriorityDefault(text: string)
    requires '[' !in text
    ensures InferPriority(text) == Medium
  {
    forall m, p | 0 <= m <= |text| ensures !TagFor(text, m, p) {
      if m < |text| { assert text[m] != '['; }
    }
    InferPriorityUntagged(text);
  }

  // ---------------------------------------------------------------------
  // infer_owner

  /** `PRIO_RX.sub("", s[i..])`: every tag found scanning left to right is
      dropped, in one pass. */
  function RemoveTagsFrom(s: string, i: nat): string
    requires i <= |s|
    decreases |s| - i
  {
    if i == |s| then []
    else
      match TagAt(s, i)
      case Some(p) => RemoveTagsFrom(s, i + |Word(p)| + 2)
      case None => [s[i]] + RemoveTagsFrom(s, i + 1)
  }

  function RemoveTags(s: string): string
  {
    RemoveTagsFrom(s, 0)
  }

  /** `infer_owner`: the first two words of the tag-free text before
      " to ", the only word, or "Unknown". */
  function InferOwner(text: string): string
  {
    var t := Strip(RemoveTags(text));
    var head := Strip(SplitOnce(t, " to ")[0]);
    var tokens := Words(head);
    if |tokens| >= 2 then tokens[0] + " " + tokens[1]
    else if |tokens| == 1 then tokens[0]
    else "Unknown"
  }

  /** Text without `[` holds no tag and loses nothing. */
  lemma {:induction false} RemoveTagsPlain(s: string, i: nat)
    requires i <= |s| && forall m :: i <= m < |s| ==> s[m] != '['
    ensures RemoveTagsFrom(s, i) == s[i..]
    decreases |s| - i
  {
    if i < |s| {
      assert TagAt(s, i).None?;
      RemoveTagsPlain(s, i + 1);
      assert s[i..] == [s[i]] + s[i + 1..];
    }
  }

  /** A leading tag is dropped whole. */
  lemma RemoveLeadingTag(tag: string, rest: string, p: Priority)
    requires |tag| == |Word(p)| + 2 && TagFor(tag, 0, p)
    requires forall m :: 0 <= m < |rest| ==> rest[m] != '['
    ensures RemoveTags(tag + rest) == rest
  {
    var s := tag + rest;
    assert s[1..1 + |Word(p)|] == tag[1..1 + |Word(p)|];
    assert TagFor(s, 0, p);
    TagsDiffer(s, 0, p, TagAt(s, 0).value);
    RemoveTagsPlain(s, |tag|);
    assert s[|tag|..] == rest;
  }

  /** Leading whitespace before clean text is stripped away. */
  lemma StripLeading(sp: string, w: string)
    requires AllIn(sp, Whitespace) && w != [] && !IsSpace(w[0]) && !IsSpace(w[|w| - 1])
    ensures Strip(sp + w) == w
  {
    var s := sp + w;
    SkipInIs(s, 0, |sp|, Whitespace);
    assert s[|sp|..] == w;
    StripInOfClean(w, Whitespace);
  }

  /** A word as `split()` yields it: non-empty, no whitespace. */
  predicate IsWord(w: string)
  {
    w != [] && forall m :: 0 <= m < |w| ==> !IsSpace(w[m])
  }

  /** The owner name formed by one word, or two joined by a space. */
  function Name(w1: string, w2: string): string
  {
    if w2 == [] then w1 else w1 + " " + w2
  }

  /** `split()` of one word, or of two words with one space between. */
  lemma WordsOfName(w1: string, w2: string)
    requires IsWord(w1) && (w2 == [] || IsWord(w2))
    ensures Words(Name(w1, w2)) == if w2 == [] then [w1] else [w1, w2]
  {
    var s := Name(w1, w2);
    NameFirstWord(s, w1);
    if w2 == [] {
      SkipInIs(s, |w1|, |w1|, Whitespace);
    } else {
      NameSecondWord(s, w1, w2);
    }
  }

  /** The first word of a name runs up to its end or its space. */
  lemma NameFirstWord(s: string, w1: string)
    requires IsWord(w1) && |w1| <= |s| && s[..|w1|] == w1 && (|s| == |w1| || s[|w1|] == ' ')
    ensures Words(s) == [w1] + WordsFrom(s, |w1|)
  {
    assert forall m :: 0 <= m < |w1| ==> s[m] == w1[m];
    SkipInIs(s, 0, 0, Whitespace);
    SkipOutIs(s, 0, |w1|, Whitespace);
  }

  /** After the space comes the second word, and nothing after it. */
  lemma NameSecondWord(s: string, w1: string, w2: string)
    requires IsWord(w1) && IsWord(w2) && s == w1 + " " + w2
    ensures WordsFrom(s, |w1|) == [w2]
  {
    var b := |w1| + 1;
    assert forall m :: b <= m < |s| ==> s[m] == w2[m - b];
    SkipInIs(s, |w1|, b, Whitespace);
    SkipOutIs(s, b, |s|, Whitespace);
    SkipInIs(s, |s|, |s|, Whitespace);
    assert s[b..|s|] == w2;
  }

  /** In a name followed by " to ", the first " to " is the one after
      the name, unless the second word is "to" itself. */
  lemma FirstToAfterName(w1: string, w2: string, rest: string)
    requires IsWord(w1) && (w2 == [] || (IsWord(w2) && w2 != "to"))
    ensures Find(Name(w1, w2) + " to " + rest, " to ", 0) == |Name(w1, w2)|
  {
    var name := Name(w1, w2);
    var t := name + " to " + rest;
    assert forall m :: 0 <= m < |name| ==> t[m] == name[m];
    forall k | 0 <= k < |name| ensures !At(t, k, " to ") {
      if k < |w1| {
        NotAtChar(t, " to ", k);
      } else if k > |w1| {
        assert name[k] == w2[k - |w1| - 1];
        NotAtChar(t, " to ", k);
      } else if |w2| >= 3 {
        assert t[k + 3] == w2[2];
        assert t[k..k + 4][3] == t[k + 3];
      } else if |w2| == 2 {
        assert t[k + 1..k + 3] == w2;
        assert t[k..k + 4][1..3] == t[k + 1..k + 3];
      } else {
        assert t[k + 2] == ' ';
        assert t[k..k + 4][2] == t[k + 2];
      }
    }
    assert t[|name|..|name| + 4] == " to ";
    FindIs(t, " to ", 0, |name|);
  }

  /** The head before the first " to " after a name is the name. */
  lemma NameHead(w1: string, w2: string, rest: string)
    requires IsWord(w1) && (w2 == [] || (IsWord(w2) && w2 != "to"))
    ensures Strip(SplitOnce(Name(w1, w2) + " to " + rest, " to ")[0]) == Name(w1, w2)
  {
    var name := Name(w1, w2);
    var t := name + " to " + rest;
    FirstToAfterName(w1, w2, rest);
    assert t[..|name|] == name;
    assert name[0] == w1[0];
    if w2 == [] {
      assert name[|name| - 1] == w1[|w1| - 1];
    } else {
      assert name[|name| - 1] == w2[|w2| - 1];
    }
    StripInOfClean(name, Whitespace);
  }

  /** `infer_owner` in terms of its tag-free stripped text and its head. */
  lemma InferOwnerVia(text: string, t: string, head: string)
    requires Strip(RemoveTags(text)) == t && Strip(SplitOnce(t, " to ")[0]) == head
    ensures var tokens := Words(head);
      InferOwner(text) == if |tokens| >= 2 then tokens[0] + " " + tokens[1]
                          else if |tokens| == 1 then tokens[0] else "Unknown"
  {
  }

  /** `infer_owner` takes the one or two words that stand before the
      first " to " of the tag-free text. */
  lemma InferOwnerBeforeTo(text: string, sp: string, w1: string, w2: string, rest: string)
    requires RemoveTags(text) == sp + Name(w1, w2) + " to " + rest
    requires AllIn(sp, Whitespace)
    requires IsWord(w1) && (w2 == [] || (IsWord(w2) && w2 != "to"))
    requires rest != [] && !IsSpace(rest[|rest| - 1])
    ensures InferOwner(text) == Name(w1, w2)
  {
    var name := Name(w1, w2);
    var t := name + " to " + rest;
    StripNameLine(sp, w1, w2, rest);
    NameHead(w1, w2, rest);
    InferOwnerVia(text, t, name);
    WordsOfName(w1, w2);
  }

  /** Leading whitespace is all `strip()` removes from such a line. */
  lemma StripNameLine(sp: string, w1: string, w2: string, rest: string)
    requires AllIn(sp, Whitespace) && IsWord(w1)
    requires rest != [] && !IsSpace(rest[|rest| - 1])
    ensures Strip(sp + Name(w1, w2) + " to " + rest) == Name(w1, w2) + " to " + rest
  {
    var name := Name(w1, w2);
    var t := name + " to " + rest;
    assert t[0] == w1[0] && t[|t| - 1] == rest[|rest| - 1];
    assert sp + name + " to " + rest == sp + t;
    StripLeading(sp, t);
  }

  /** Text that is nothing but tags and whitespace has no owner. */
  lemma InferOwnerBlank(text: string)
    requires AllIn(RemoveTags(text), Whitespace)
    ensures InferOwner(text) == "Unknown"
  {
    var r := RemoveTags(text);
    SkipInIs(r, 0, |r|, Whitespace);
    assert Strip(r) == [];
    assert SplitOnce([], " to ") == [[]];
    assert Strip([]) == [];
  }

  /** No `[` anywhere in the text. */
  predicate NoBracket(s: string)
  {
    forall m :: 0 <= m < |s| ==> s[m] != '['
  }

  /** The tag words are already lower-case. */
  lemma WordLower(p: Priority)
    ensures Lower(Word(p)) == Word(p)
  {
    match p
    case High => assert Lower("high") == "high";
    case Medium => assert Lower("medium") == "medium";
    case Low => assert Lower("low") == "low";
  }

  /** `[word]` is the tag of its priority. */
  lemma TagOfWord(p: Priority)
    ensures TagFor("[" + Word(p) + "]", 0, p)
  {
    var tag := "[" + Word(p) + "]";
    assert tag[1..1 + |Word(p)|] == Word(p);
    WordLower(p);
  }

  /** A name of bracket-free words holds no bracket. */
  lemma NameNoBracket(w1: string, w2: string)
    requires NoBracket(w1) && NoBracket(w2)
    ensures NoBracket(Name(w1, w2))
  {
    var name := Name(w1, w2);
    if w2 != [] {
      assert forall m :: 0 <= m < |w1| ==> name[m] == w1[m];
      assert forall m :: |w1| < m < |name| ==> name[m] == w2[m - |w1| - 1];
    }
  }

  /** Joining bracket-free pieces with " to " adds no bracket. */
  lemma LineNoBracket(lead: string, name: string, task: string)
    requires NoBracket(lead) && NoBracket(name) && NoBracket(task)
    ensures NoBracket(lead + name + " to " + task)
  {
    var rest := lead + name + " to " + task;
    var a := |lead| + |name|;
    assert forall m :: 0 <= m < |lead| ==> rest[m] == lead[m];
    assert forall m :: |lead| <= m < a ==> rest[m] == name[m - |lead|];
    assert forall m :: a + 4 <= m < |rest| ==> rest[m] == task[m - a - 4];
  }

  /** The shape of `infer_owner`'s documented examples: a priority tag,
      a one- or two-word name, " to ", and the work to do. The owner is the
      name. */
  lemma InferOwnerTagged(p: Priority, w1: string, w2: string, task: string)
    requires IsWord(w1) && (w2 == [] || (IsWord(w2) && w2 != "to"))
    requires NoBracket(w1) && NoBracket(w2) && NoBracket(task)
    requires task != [] && !IsSpace(task[|task| - 1])
    ensures InferOwner("[" + Word(p) + "] " + Name(w1, w2) + " to " + task) == Name(w1, w2)
  {
    var tag := "[" + Word(p) + "]";
    var name := Name(w1, w2);
    var rest := " " + name + " to " + task;
    TagSplit(Word(p), name, task);
    TagOfWord(p);
    NameNoBracket(w1, w2);
    LineNoBracket(" ", name, task);
    RemoveLeadingTag(tag, rest, p);
    InferOwnerBeforeTo(tag + rest, " ", w1, w2, task);
  }

  /** A tagged line is its tag followed by the rest. */
  lemma TagSplit(w: string, name: string, task: string)
    ensures "[" + w + "] " + name + " to " + task == ("[" + w + "]") + (" " + name + " to " + task)
  {
  }

  /** The untagged form, as in `infer_owner("Priya to prepare slides")`:
      the owner is the name before " to ". */
  lemma InferOwnerUntagged(w1: string, w2: string, task: string)
    requires IsWord(w1) && (w2 == [] || (IsWord(w2) && w2 != "to"))
    requires NoBracket(w1) && NoBracket(w2) && NoBracket(task)
    requires task != [] && !IsSpace(task[|task| - 1])
    ensures InferOwner(Name(w1, w2) + " to " + task) == Name(w1, w2)
  {
    var text := Name(w1, w2) + " to " + task;
    NameNoBracket(w1, w2);
    LineNoBracket([], Name(w1, w2), task);
    assert [] + Name(w1, w2) + " to " + task == text;
    RemoveTagsPlain(text, 0);
    InferOwnerBeforeTo(text, [], w1, w2, task);
  }

  // ---------------------------------------------------------------------
  // group_actions and the per-day priority Counter

  /** The items `f` files under `p`, in input order. */
  function BucketBy<T>(xs: seq<T>, f: T -> Priority, p: Priority): seq<T>
  {
    Filter(xs, x => f(x) == p)
  }

  /** The actions filed under `p`, in input order. */
  function Bucket(actions: seq<string>, p: Priority): seq<string>
  {
    BucketBy(actions, InferPriority, p)
  }

  /** Adding one item to the end files it under its own priority. */
  lemma BucketBySnoc<T>(xs: seq<T>, f: T -> Priority, i: nat, p: Priority)
    requires i < |xs|
    ensures BucketBy(xs[..i + 1], f, p) == BucketBy(xs[..i], f, p) + (if f(xs[i]) == p then [xs[i]] else [])
  {
    assert xs[..i + 1] == xs[..i] + [xs[i]];
    FilterAppend(xs[..i], [xs[i]], x => f(x) == p);
  }

  /** Adding one action to the end files it under its own priority. */
  lemma BucketSnoc(actions: seq<string>, i: nat, p: Priority)
    requires i < |actions|
    ensures Bucket(actions[..i + 1], p)
      == Bucket(actions[..i], p) + (if InferPriority(actions[i]) == p then [actions[i]] else [])
  {
    BucketBySnoc(actions, InferPriority, i, p);
  }

  /** `group_actions`: the three buckets, each in input order. */
  method GroupActions(actions: seq<string>) returns (out: map<Priority, seq<string>>)
    ensures forall p :: p in out && out[p] == Bucket(actions, p)
  {
    out := map[High := [], Medium := [], Low := []];
    forall p ensures p in out && out[p] == Bucket(actions[..0], p) {
      assert p.High? || p.Medium? || p.Low?;
      assert actions[..0] == [];
    }
    var i := 0;
    while i < |actions|
      invariant 0 <= i <= |actions|
      invariant forall p :: p in out && out[p] == Bucket(actions[..i], p)
    {
      var a := actions[i];
      var p := InferPriority(a);
      out := out[p := out[p] + [a]];
      forall q ensures Bucket(actions[..i + 1], q) == Bucket(actions[..i], q) + (if p == q then [a] else []) {
        BucketSnoc(actions, i, q);
      }
      i := i + 1;
    }
    assert actions[..i] == actions;
  }

  /** An action is in the bucket of its own priority and in no other. */
  lemma BucketMembers(actions: seq<string>, a: string, p: Priority)
    ensures a in Bucket(actions, p) <==> a in actions && InferPriority(a) == p
  {
    BucketByMembers(actions, InferPriority, p, a);
  }

  lemma BucketByMembers<T>(xs: seq<T>, f: T -> Priority, p: Priority, x: T)
    ensures x in BucketBy(xs, f, p) <==> x in xs && f(x) == p
  {
    FilterMembers(xs, y => f(y) == p, x);
  }

  /** Together the buckets hold every action exactly as often as the input
      does. */
  lemma BucketsPartition(actions: seq<string>)
    ensures multiset(Bucket(actions, High)) + multiset(Bucket(actions, Medium)) + multiset(Bucket(actions, Low))
      == multiset(actions)
    ensures |Bucket(actions, High)| + |Bucket(actions, Medium)| + |Bucket(actions, Low)| == |actions|
  {
    PartitionBy(actions, InferPriority);
  }

  /** Whatever the classifier, the three piles split the input. */
  lemma {:induction false} PartitionBy<T>(xs: seq<T>, f: T -> Priority)
    ensures multiset(BucketBy(xs, f, High)) + multiset(BucketBy(xs, f, Medium)) + multiset(BucketBy(xs, f, Low))
      == multiset(xs)
    ensures |BucketBy(xs, f, High)| + |BucketBy(xs, f, Medium)| + |BucketBy(xs, f, Low)| == |xs|
  {
    if xs != [] {
      var n := |xs| - 1;
      var init := xs[..n];
      PartitionBy(init, f);
      BucketByLast(xs, f, High);
      BucketByLast(xs, f, Medium);
      BucketByLast(xs, f, Low);
      FileLast(xs, BucketBy(init, f, High), BucketBy(init, f, Medium), BucketBy(init, f, Low),
               BucketBy(xs, f, High), BucketBy(xs, f, Medium), BucketBy(xs, f, Low));
    }
  }

  /** `BucketBySnoc` for the last item. */
  lemma BucketByLast<T>(xs: seq<T>, f: T -> Priority, p: Priority)
    requires xs != []
    ensures BucketBy(xs, f, p)
      == BucketBy(xs[..|xs| - 1], f, p) + (if f(xs[|xs| - 1]) == p then [xs[|xs| - 1]] else [])
  {
    BucketBySnoc(xs, f, |xs| - 1, p);
    assert xs[..|xs|] == xs;
  }

  /** Filing the last item into exactly one of three piles that split the
      rest makes them split the whole. */
  lemma FileLast<T>(xs: seq<T>, h: seq<T>, m: seq<T>, l: seq<T>, h': seq<T>, m': seq<T>, l': seq<T>)
    requires xs != []
    requires multiset(h) + multiset(m) + multiset(l) == multiset(xs[..|xs| - 1])
    requires |h| + |m| + |l| == |xs| - 1
    requires var a := xs[|xs| - 1];
      (h' == h + [a] && m' == m && l' == l) || (h' == h && m' == m + [a] && l' == l)
      || (h' == h && m' == m && l' == l + [a])
    ensures multiset(h') + multiset(m') + multiset(l') == multiset(xs)
    ensures |h'| + |m'| + |l'| == |xs|
  {
    assert xs == xs[..|xs| - 1] + [xs[|xs| - 1]];
  }

  /** A `Counter` of priorities. */
  datatype Counts = Counts(high: nat, medium: nat, low: nat)

  /** `counts[p]`, zero when absent. */
  function CountOf(c: Counts, p: Priority): nat
  {
    match p
    case High => c.high
    case Medium => c.medium
    case Low => c.low
  }

  /** `counts[p] += 1`. */
  function Bump(c: Counts, p: Priority): (r: Counts)
    ensures CountOf(r, p) == CountOf(c, p) + 1
    ensures forall q :: q != p ==> CountOf(r, q) == CountOf(c, q)
  {
    match p
    case High => c.(high := c.high + 1)
    case Medium => c.(medium := c.medium + 1)
    case Low => c.(low := c.low + 1)
  }

  /** `sum(counts.values())`. */
  function Total(c: Counts): nat
  {
    c.high + c.medium + c.low
  }

  /** The Counter after counting `infer_priority` of every action. */
  function Tally(actions: seq<string>): Counts
  {
    if actions == [] then Counts(0, 0, 0)
    else Bump(Tally(actions[..|actions| - 1]), InferPriority(actions[|actions| - 1]))
  }

  /** Each count is the size of the matching bucket, so the counts add up
      to the number of actions. */
  lemma {:induction false} TallyIsBuckets(actions: seq<string>)
    ensures forall p :: CountOf(Tally(actions), p) == |Bucket(actions, p)|
    ensures Total(Tally(actions)) == |actions|
  {
    if actions != [] {
      var n := |actions| - 1;
      TallyIsBuckets(actions[..n]);
      assert actions[..n + 1] == actions;
      forall p ensures CountOf(Tally(actions), p) == |Bucket(actions, p)| {
        BucketSnoc(actions, n, p);
      }
      BucketsPartition(actions);
    }
  }

  // ---------------------------------------------------------------------
  // parse_day_doc

  /** One day's parsed log. */
  datatype DayDoc = DayDoc(date: Dates.Date, name: string, sections: map<SectionName, seq<string>>,
                           actions: seq<string>, counts: Counts)

  /** `secs.get(c, [])`. */
  function Get(secs: map<SectionName, seq<string>>, c: SectionName): seq<string>
  {
    if c in secs then secs[c] else []
  }

  /** What `parse_day_doc` returns for a file of this name and text. */
  function DayDocOf(name: string, text: string): (r: Result<DayDoc>)
    ensures r.Err? <==> !PackagedLogs.DateOf(name).OnDate?
    ensures r.Err? ==> r.error == "ValueError"
  {
    match PackagedLogs.DateOf(name)
    case OnDate(d) =>
      var secs := ExtractedSections(text);
      var actions := Bullets(Get(secs, Actions));
      Ok(DayDoc(d, name, secs, actions, Tally(actions)))
    case _ => Err("ValueError")
  }

  /** The `Counter` loop of `parse_day_doc`. */
  method CountPriorities(actions: seq<string>) returns (counts: Counts)
    ensures counts == Tally(actions)
  {
    counts := Counts(0, 0, 0);
    var i := 0;
    while i < |actions|
      invariant 0 <= i <= |actions|
      invariant counts == Tally(actions[..i])
    {
      assert actions[..i + 1][..i] == actions[..i];
      counts := Bump(counts, InferPriority(actions[i]));
      i := i + 1;
    }
    assert actions[..i] == actions;
  }

  /** `parse_day_doc`, the file's text given: a name without a real date
      raises `ValueError`; otherwise the sections, the bullets of the
      Actions section and their priority counts. */
  method ParseDayDoc(name: string, text: string) returns (r: Result<DayDoc>)
    ensures r == DayDocOf(name, text)
  {
    var m := PackagedLogs.DateOf(name);
    if !m.OnDate? {
      return Err("ValueError");
    }
    var secs := ExtractSections(text);
    var actions := ExtractBullets(Get(secs, Actions));
    var counts := CountPriorities(actions);
    r := Ok(DayDoc(m.date, name, secs, actions, counts));
  }

  /** A parsed day holds the date its file name carries, its actions are
      the bullets of its Actions section, and its counts add up to the
      number of actions, one per priority bucket. */
  lemma DayDocCounts(name: string, text: string, doc: DayDoc)
    requires DayDocOf(name, text) == Ok(doc)
    ensures PackagedLogs.DateOf(name) == PackagedLogs.OnDate(doc.date)
    ensures doc.actions == Bullets(ExtractedSections(text)[Actions])
    ensures forall p :: CountOf(doc.counts, p) == |Bucket(doc.actions, p)|
    ensures Total(doc.counts) == |doc.actions|
  {
    TallyIsBuckets(doc.actions);
  }

  // ---------------------------------------------------------------------
  // aggregate_sections

  /** `any(BULLET_RX.match(x) for x in lines)`. */
  predicate AnyBullet(lines: seq<string>)
  {
    exists k :: 0 <= k < |lines| && BulletMatch(lines[k]).Some?
  }

  /** A narrative section of one day as it enters the merge: its bullets
      when any line is a bullet, else every stripped non-blank line. */
  function Merged(lines: seq<string>): seq<string>
  {
    if AnyBullet(lines) then Bullets(lines) else Map(Filter(lines, NonBlank), Strip)
  }

  /** What one day adds to section `c`. */
  function Contribution(d: DayDoc, c: SectionName): seq<string>
  {
    if c == Actions then d.actions else Merged(Get(d.sections, c))
  }

  /** Section `c` merged over the days, in day order. */
  function AggLines(docs: seq<DayDoc>, c: SectionName): seq<string>
  {
    if docs == [] then []
    else AggLines(docs[..|docs| - 1], c) + Contribution(docs[|docs| - 1], c)
  }

  /** What `aggregate_sections` returns. */
  function Aggregated(docs: seq<DayDoc>): (r: map<SectionName, seq<string>>)
    ensures forall c :: c in r && r[c] == AggLines(docs, c)
  {
    AllInOrder();
    map c | c in Order :: AggLines(docs, c)
  }

  /** `[ln.strip() for ln in lines if ln.strip()]`. */
  method StrippedLines(lines: seq<string>) returns (r: seq<string>)
    ensures r == Map(Filter(lines, NonBlank), Strip)
  {
    r := [];
    var i := 0;
    while i < |lines|
      invariant 0 <= i <= |lines|
      invariant r == Map(Filter(lines[..i], NonBlank), Strip)
    {
      StrippedNext(lines, i);
      var t := Strip(lines[i]);
      if t != [] {
        r := r + [t];
      }
      i := i + 1;
    }
    assert lines[..i] == lines;
  }

  /** One more line of the comprehension: its strip is kept unless
      empty. */
  lemma StrippedNext(lines: seq<string>, i: nat)
    requires i < |lines|
    ensures var t := Strip(lines[i]);
      Map(Filter(lines[..i + 1], NonBlank), Strip)
        == Map(Filter(lines[..i], NonBlank), Strip) + (if t != [] then [t] else [])
  {
    assert lines[..i + 1] == lines[..i] + [lines[i]];
    FilterAppend(lines[..i], [lines[i]], NonBlank);
    MapAppend(Filter(lines[..i], NonBlank), Filter([lines[i]], NonBlank), Strip);
  }

  /** `any(BULLET_RX.match(x) for x in lines)`, as a loop. */
  method HasBullet(lines: seq<string>) returns (b: bool)
    ensures b == AnyBullet(lines)
  {
    b := false;
    var i := 0;
    while i < |lines| && !b
      invariant 0 <= i <= |lines|
      invariant b == exists k :: 0 <= k < i && BulletMatch(lines[k]).Some?
    {
      b := BulletMatch(lines[i]).Some?;
      i := i + 1;
    }
  }

  /** What one day adds to one section, as the loop body of
      `aggregate_sections` computes it. */
  method DayContribution(d: DayDoc, name: SectionName) returns (more: seq<string>)
    ensures more == Contribution(d, name)
  {
    if name == Actions {
      more := d.actions;
    } else {
      var lines := Get(d.sections, name);
      var bulleted := HasBullet(lines);
      if bulleted {
        more := ExtractBullets(lines);
      } else {
        more := StrippedLines(lines);
      }
    }
  }

  /** `agg` holds every section merged over `docs`. */
  predicate MergedOver(docs: seq<DayDoc>, agg: map<SectionName, seq<string>>)
  {
    forall c :: c in agg && agg[c] == AggLines(docs, c)
  }

  /** `agg` is `before` with day `d` added to the first `j` sections of
      `SECTION_NAMES`. */
  predicate AddedUpTo(before: map<SectionName, seq<string>>, d: DayDoc, j: nat, agg: map<SectionName, seq<string>>)
    requires j <= |Order|
  {
    forall c :: c in before ==> c in agg && agg[c] == if c in Order[..j] then before[c] + Contribution(d, c) else before[c]
  }

  /** Adding the day to one more section. */
  lemma AddedStep(before: map<SectionName, seq<string>>, d: DayDoc, j: nat, next: nat,
                   agg: map<SectionName, seq<string>>, after: map<SectionName, seq<string>>)
    requires j < |Order| && next == j + 1 && AddedUpTo(before, d, j, agg) && Order[j] in agg
    requires after == agg[Order[j] := agg[Order[j]] + Contribution(d, Order[j])]
    ensures AddedUpTo(before, d, next, after)
  {
    assert Order[..j + 1] == Order[..j] + [Order[j]];
    OrderDistinct(j);
  }

  /** Once the day is added to every section, the merge covers one more
      day. */
  lemma AddedAll(docs: seq<DayDoc>, i: nat, next: nat, before: map<SectionName, seq<string>>, agg: map<SectionName, seq<string>>)
    requires i < |docs| && next == i + 1 && MergedOver(docs[..i], before) && AddedUpTo(before, docs[i], |Order|, agg)
    ensures MergedOver(docs[..next], agg)
  {
    AllInOrder();
    assert Order[..|Order|] == Order;
    assert docs[..i + 1][..i] == docs[..i];
  }

  /** `aggregate_sections`: every section of every day, appended in day
      order. */
  method AggregateSections(docs: seq<DayDoc>) returns (agg: map<SectionName, seq<string>>)
    ensures agg == Aggregated(docs)
  {
    AllInOrder();
    agg := map c | c in Order :: [];
    var i := 0;
    while i < |docs|
      invariant 0 <= i <= |docs|
      invariant MergedOver(docs[..i], agg)
    {
      var d := docs[i];
      ghost var before := agg;
      var j := 0;
      while j < |Order|
        invariant 0 <= j <= |Order|
        invariant AddedUpTo(before, d, j, agg)
      {
        var name := Order[j];
        var more := DayContribution(d, name);
        ghost var was := agg;
        agg := agg[name := agg[name] + more];
        var next := j + 1;
        AddedStep(before, d, j, next, was, agg);
        j := next;
      }
      var next := i + 1;
      AddedAll(docs, i, next, before, agg);
      i := next;
    }
    assert docs[..i] == docs;
    SameEntries(agg, Aggregated(docs));
  }

  /** `SECTION_NAMES` lists each name once. */
  lemma OrderDistinct(j: nat)
    requires j < |Order|
    ensures Order[j] !in Order[..j]
  {
  }

  /** The merged Actions are every day's actions, in day order, so their
      number is the sum of the days' action counts. */
  lemma {:induction false} AggregatedActions(docs: seq<DayDoc>)
    ensures |Aggregated(docs)[Actions]| == TotalActions(docs)
    ensures forall a :: a in Aggregated(docs)[Actions] <==> exists k :: 0 <= k < |docs| && a in docs[k].actions
  {
    AggActionsCount(docs);
  }

  /** `sum(len(d.actions) for d in day_docs)`. */
  function TotalActions(docs: seq<DayDoc>): nat
  {
    if docs == [] then 0 else TotalActions(docs[..|docs| - 1]) + |docs[|docs| - 1].actions|
  }

  lemma {:induction false} AggActionsCount(docs: seq<DayDoc>)
    ensures |AggLines(docs, Actions)| == TotalActions(docs)
    ensures forall a :: a in AggLines(docs, Actions) <==> exists k :: 0 <= k < |docs| && a in docs[k].actions
  {
    if docs != [] {
      var n := |docs| - 1;
      var init := docs[..n];
      AggActionsCount(init);
      forall a ensures a in AggLines(docs, Actions) <==> exists k :: 0 <= k < |docs| && a in docs[k].actions {
        if a in AggLines(init, Actions) {
          var k :| 0 <= k < |init| && a in init[k].actions;
          assert docs[k] == init[k];
        }
        if exists k :: 0 <= k < |docs| && a in docs[k].actions {
          var k :| 0 <= k < |docs| && a in docs[k].actions;
          if k < n {
            assert init[k] == docs[k];
          }
        }
      }
    }
  }

  /** Every merged narrative line is non-empty and stripped. */
  lemma MergedClean(lines: seq<string>)
    ensures forall x :: x in Merged(lines) ==> x != [] && Strip(x) == x
  {
    if AnyBullet(lines) {
      BulletsClean(lines);
    } else {
      var kept := Filter(lines, NonBlank);
      forall x | x in Merged(lines) ensures x != [] && Strip(x) == x {
        var k :| 0 <= k < |kept| && x == Strip(kept[k]);
        assert kept[k] in kept;
        FilterMembers(lines, NonBlank, kept[k]);
        StripIdempotent(kept[k]);
      }
    }
  }

  /** Every line of a merged narrative section is non-empty and stripped. */
  lemma {:induction false} AggregatedClean(docs: seq<DayDoc>, c: SectionName)
    requires c != Actions
    ensures forall x :: x in Aggregated(docs)[c] ==> x != [] && Strip(x) == x
  {
    AggLinesClean(docs, c);
  }

  lemma {:induction false} AggLinesClean(docs: seq<DayDoc>, c: SectionName)
    requires c != Actions
    ensures forall x :: x in AggLines(docs, c) ==> x != [] && Strip(x) == x
  {
    if docs != [] {
      AggLinesClean(docs[..|docs| - 1], c);
      MergedClean(Get(docs[|docs| - 1].sections, c));
    }
  }
}
