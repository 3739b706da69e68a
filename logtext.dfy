/**
 * The log-parsing helpers that scripts/digest_aggregate.py and
 * scripts/digest_daily.py both define, line for line the same: mojibake
 * repair, the tolerant heading locator and section slicer, the wide bullet
 * grammar, priority tags and the owner-name heuristics.
 *
 * Every regular expression is written out as a scanner over the string,
 * following the backtracking the pattern admits.
 */
module LogText {
  import opened Wrappers
  import opened Text
  import opened Sections

  // ---------------------------------------------------------------------
  // fix_mojibake

  /** `MOJIBAKE_FIXES`, in dictionary order: the UTF-8 bytes of a
      punctuation mark misread as cp1252, and the mark. */
  const MojibakeFixes: seq<(string, string)> := [
    ("\U{E2}\U{20AC}\U{201C}", "\U{2013}"),
    ("\U{E2}\U{20AC}\U{201D}", "\U{2014}"),
    ("\U{E2}\U{20AC}\U{2DC}", "\U{2018}"),
    ("\U{E2}\U{20AC}\U{2122}", "\U{2019}"),
    ("\U{E2}\U{20AC}\U{153}", "\U{201C}"),
    ("\U{E2}\U{20AC}\U{9D}", "\U{201D}"),
    ("\U{E2}\U{20AC}\U{A2}", "\U{2022}")
  ]

  predicate NonEmptyKeys(fixes: seq<(string, string)>)
  {
    forall i :: 0 <= i < |fixes| ==> |fixes[i].0| > 0
  }

  /** Replaces every key of `fixes` by its value, one entry after the other. */
  function ApplyFixes(s: string, fixes: seq<(string, string)>): string
    requires NonEmptyKeys(fixes)
    decreases |fixes|
  {
    if fixes == [] then s else ApplyFixes(Replace(s, fixes[0].0, fixes[0].1), fixes[1..])
  }

  /** The repaired text: the specification of `FixMojibake`. */
  function Repaired(s: string): string
  {
    ApplyFixes(s, MojibakeFixes)
  }

  /** `fix_mojibake`: one `str.replace` per table entry, in table order. */
  method FixMojibake(s: string) returns (r: string)
    ensures r == Repaired(s)
  {
    r := s;
    var i := 0;
    while i < |MojibakeFixes|
      invariant 0 <= i <= |MojibakeFixes|
      invariant ApplyFixes(r, MojibakeFixes[i..]) == Repaired(s)
    {
      var (k, v) := MojibakeFixes[i];
      assert MojibakeFixes[i..][1..] == MojibakeFixes[i + 1..];
      r := Replace(r, k, v);
      i := i + 1;
    }
  }

  /** Each table value is one character that is not the lead byte of any
      key. */
  lemma {:induction false} ApplyFixesAbsent(s: string, fixes: seq<(string, string)>, c: char)
    requires NonEmptyKeys(fixes)
    requires forall i :: 0 <= i < |fixes| ==> fixes[i].0[0] == c
    requires c !in s
    ensures ApplyFixes(s, fixes) == s
  {
    if fixes != [] {
      assert forall j :: 0 <= j <= |s| ==> !At(s, j, fixes[0].0);
      ReplaceAbsent(s, fixes[0].0, fixes[0].1, 0);
      ApplyFixesAbsent(s, fixes[1..], c);
    }
  }

  /** Text without the lead character `â` of every key comes back unchanged. */
  lemma RepairedUnchanged(s: string)
    requires '\U{E2}' !in s
    ensures Repaired(s) == s
  {
    ApplyFixesAbsent(s, MojibakeFixes, '\U{E2}');
  }

  /** Where no key of `fixes` occurs as a whole in a string no longer than
      the keys, nothing changes. */
  lemma {:induction false} ApplyFixesNoKey(s: string, fixes: seq<(string, string)>)
    requires NonEmptyKeys(fixes)
    requires forall i :: 0 <= i < |fixes| ==> |s| <= |fixes[i].0| && s != fixes[i].0
    ensures ApplyFixes(s, fixes) == s
  {
    if fixes != [] {
      assert forall j :: 0 <= j <= |s| ==> !At(s, j, fixes[0].0);
      ReplaceAbsent(s, fixes[0].0, fixes[0].1, 0);
      ApplyFixesNoKey(s, fixes[1..]);
    }
  }

  /** The table's keys are three characters each and pairwise different;
      its values are single characters. */
  lemma TableShape()
    ensures NonEmptyKeys(MojibakeFixes)
    ensures forall e :: 0 <= e < |MojibakeFixes| ==> |MojibakeFixes[e].0| == 3 && |MojibakeFixes[e].1| == 1
    ensures forall e, f :: 0 <= e < f < |MojibakeFixes| ==> MojibakeFixes[e].0[2] != MojibakeFixes[f].0[2]
  {
  }

  /** A string that is exactly one key `fixes[i]` becomes that key's value:
      the keys are distinct and of one length, and the values shorter. */
  lemma KeyRepaired(i: nat)
    requires i < |MojibakeFixes|
    ensures Repaired(MojibakeFixes[i].0) == MojibakeFixes[i].1
  {
    var fs := MojibakeFixes;
    var k := fs[i].0;
    var v := fs[i].1;
    TableShape();
    KeyPassesEarlier(fs, i);
    ApplyFixesSplit(k, fs, i);
    ReplaceWhole(k, v);
    ApplyFixesHead(k, fs[i..]);
    ApplyFixesNoKey(v, fs[i + 1..]);
    assert fs[i..][1..] == fs[i + 1..];
  }

  /** The keys before entry `i` leave key `i` as it is. */
  lemma KeyPassesEarlier(fs: seq<(string, string)>, i: nat)
    requires fs == MojibakeFixes && i < |fs|
    ensures ApplyFixes(fs[i].0, fs[..i]) == fs[i].0
  {
    TableShape();
    var early := fs[..i];
    forall e | 0 <= e < |early|
      ensures |fs[i].0| <= |early[e].0| && fs[i].0 != early[e].0
    {
      assert early[e] == fs[e];
      assert fs[e].0[2] != fs[i].0[2];
    }
    ApplyFixesNoKey(fs[i].0, early);
  }

  /** The first entry of a table is applied first. */
  lemma ApplyFixesHead(s: string, fs: seq<(string, string)>)
    requires NonEmptyKeys(fs) && fs != []
    ensures ApplyFixes(s, fs) == ApplyFixes(Replace(s, fs[0].0, fs[0].1), fs[1..])
  {
  }

  /** Applying a table is applying its first `i` entries, then the rest. */
  lemma {:induction false} ApplyFixesSplit(s: string, fixes: seq<(string, string)>, i: nat)
    requires NonEmptyKeys(fixes) && i <= |fixes|
    ensures ApplyFixes(s, fixes) == ApplyFixes(ApplyFixes(s, fixes[..i]), fixes[i..])
    decreases i
  {
    if i > 0 {
      ApplyFixesSplit(Replace(s, fixes[0].0, fixes[0].1), fixes[1..], i - 1);
      assert fixes[1..][..i - 1] == fixes[..i][1..];
      assert fixes[1..][i - 1..] == fixes[i..];
    } else {
      assert fixes[..0] == [];
      assert fixes[0..] == fixes;
    }
  }

  /** Each key, on its own, becomes its punctuation mark. */
  lemma RepairedKeys()
    ensures forall i :: 0 <= i < |MojibakeFixes| ==> Repaired(MojibakeFixes[i].0) == MojibakeFixes[i].1
  {
    forall i | 0 <= i < |MojibakeFixes| ensures Repaired(MojibakeFixes[i].0) == MojibakeFixes[i].1 {
      KeyRepaired(i);
    }
  }

  /** The repair is not idempotent: the left double quote produced from
      `â€œ` completes a key `â€“` that was already passed. */
  lemma RepairedNotIdempotent()
    ensures var s := "\U{E2}\U{20AC}\U{E2}\U{20AC}\U{153}";
      Repaired(s) == "\U{E2}\U{20AC}\U{201C}" && Repaired(Repaired(s)) == "\U{2013}"
  {
    var s := "\U{E2}\U{20AC}\U{E2}\U{20AC}\U{153}";
    var t := "\U{E2}\U{20AC}\U{201C}";
    ApplyFixesSplit(s, MojibakeFixes, 4);
    EarlyKeysAbsent(s);
    QuoteReplaced(s, t);
    LateKeysAbsent(t);
    KeyRepaired(0);
  }

  /** None of the first four keys occurs in the nested sample. */
  lemma EarlyKeysAbsent(s: string)
    requires s == "\U{E2}\U{20AC}\U{E2}\U{20AC}\U{153}"
    ensures ApplyFixes(s, MojibakeFixes[..4]) == s
  {
    var early := MojibakeFixes[..4];
    forall e, j | 0 <= e < 4 && 0 <= j <= |s| ensures !At(s, j, early[e].0) {
      var key := early[e].0;
      assert |key| == 3 && key[0] == '\U{E2}' && key[1] == '\U{20AC}' && key[2] != '\U{E2}' && key[2] != '\U{153}';
      if j == 0 { assert s[2] != key[2]; }
      else if j == 1 { assert s[1] != key[0]; }
      else if j == 2 { assert s[4] != key[2]; }
    }
    ApplyFixesAbsentKeys(s, early);
  }

  /** The fifth entry turns the inner `â€œ` into the left double quote. */
  lemma QuoteReplaced(s: string, t: string)
    requires s == "\U{E2}\U{20AC}\U{E2}\U{20AC}\U{153}" && t == "\U{E2}\U{20AC}\U{201C}"
    ensures ApplyFixes(s, MojibakeFixes[4..]) == ApplyFixes(t, MojibakeFixes[5..])
  {
    var k := MojibakeFixes[4].0;
    var v := MojibakeFixes[4].1;
    assert Replace(s, k, v) == t by {
      assert k == "\U{E2}\U{20AC}\U{153}" && v == "\U{201C}";
      assert s[1] != k[0] && s[2] != k[2] && s[2..5] == k;
      assert ReplaceFrom(s, k, v, 5) == [];
      assert ReplaceFrom(s, k, v, 2) == v;
      assert ReplaceFrom(s, k, v, 1) == [s[1]] + v;
      assert ReplaceFrom(s, k, v, 0) == [s[0]] + ([s[1]] + v);
    }
    assert MojibakeFixes[4..][0] == (k, v);
    assert MojibakeFixes[4..][1..] == MojibakeFixes[5..];
  }

  /** The last two keys do not occur in the half-repaired sample. */
  lemma LateKeysAbsent(t: string)
    requires t == "\U{E2}\U{20AC}\U{201C}"
    ensures ApplyFixes(t, MojibakeFixes[5..]) == t
  {
    ApplyFixesNoKey(t, MojibakeFixes[5..]);
  }

  /** Entries none of whose keys occur leave the text unchanged. */
  lemma {:induction false} ApplyFixesAbsentKeys(s: string, fixes: seq<(string, string)>)
    requires NonEmptyKeys(fixes)
    requires forall e :: 0 <= e < |fixes| ==> forall j :: 0 <= j <= |s| ==> !At(s, j, fixes[e].0)
    ensures ApplyFixes(s, fixes) == s
  {
    if fixes != [] {
      ReplaceAbsent(s, fixes[0].0, fixes[0].1, 0);
      ApplyFixesAbsentKeys(s, fixes[1..]);
    }
  }

  // A repair that is its own fixpoint: the table applied again and again
  // until it changes nothing more.

  /** Replacing a key by a shorter value changes nothing or shortens the
      text. */
  lemma {:induction false} ReplaceFromShrinks(s: string, k: string, v: string, i: nat)
    requires |v| < |k| && i <= |s|
    ensures ReplaceFrom(s, k, v, i) == s[i..] || |ReplaceFrom(s, k, v, i)| < |s| - i
    decreases |s| - i
  {
    if i + |k| <= |s| {
      if s[i..i + |k|] == k {
        ReplaceFromShrinks(s, k, v, i + |k|);
      } else {
        ReplaceFromShrinks(s, k, v, i + 1);
        assert [s[i]] + s[i + 1..] == s[i..];
      }
    }
  }

  /** Values shorter than their keys: a table never lengthens the text. */
  predicate Shrinking(fixes: seq<(string, string)>)
  {
    forall e :: 0 <= e < |fixes| ==> |fixes[e].1| < |fixes[e].0|
  }

  lemma {:induction false} ApplyFixesShrinks(s: string, fixes: seq<(string, string)>)
    requires NonEmptyKeys(fixes) && Shrinking(fixes)
    ensures ApplyFixes(s, fixes) == s || |ApplyFixes(s, fixes)| < |s|
    decreases |fixes|
  {
    if fixes != [] {
      var t := Replace(s, fixes[0].0, fixes[0].1);
      ReplaceFromShrinks(s, fixes[0].0, fixes[0].1, 0);
      assert s[0..] == s;
      ApplyFixesShrinks(t, fixes[1..]);
    }
  }

  /** One repair changes nothing or shortens the text. */
  lemma RepairedShrinks(s: string)
    ensures Repaired(s) == s || |Repaired(s)| < |s|
  {
    TableShape();
    ApplyFixesShrinks(s, MojibakeFixes);
  }

  /** The repair repeated until it changes nothing more; the result is a
      text the repair leaves alone. */
  function RepairedFully(s: string): (r: string)
    ensures Repaired(r) == r
    decreases |s|
  {
    RepairedShrinks(s);
    if Repaired(s) == s then s else RepairedFully(Repaired(s))
  }

  /** Unlike the single pass, the repeated repair is idempotent... */
  lemma RepairedFullyIdempotent(s: string)
    ensures RepairedFully(RepairedFully(s)) == RepairedFully(s)
  {
  }

  /** ...agrees with the single pass wherever that pass is already
      stable... */
  lemma RepairedFullyStable(s: string)
    requires Repaired(Repaired(s)) == Repaired(s)
    ensures RepairedFully(s) == Repaired(s)
  {
    RepairedShrinks(s);
  }

  /** ...and repairs the nested sample completely. */
  lemma RepairedFullyNested()
    ensures RepairedFully("\U{E2}\U{20AC}\U{E2}\U{20AC}\U{153}") == "\U{2013}"
  {
    var s := "\U{E2}\U{20AC}\U{E2}\U{20AC}\U{153}";
    var t := "\U{E2}\U{20AC}\U{201C}";
    RepairedNotIdempotent();
    RepairedUnchanged("\U{2013}");
    RepairedShrinks(s);
    RepairedShrinks(t);
  }

  // ---------------------------------------------------------------------
  // HDR_LINE, normalize_heading, slice_sections

  /** One match of `HDR_LINE`: where it starts and ends, and its group. */
  datatype Heading = Heading(start: nat, end: nat, name: string)

  /** `^` under `re.M`. */
  predicate LineStart(t: string, q: nat)
    requires q <= |t|
  {
    q == 0 || t[q - 1] == '\n'
  }

  /** `HDR_LINE` (`^[ \t]*#{2,6}\s*([A-Za-z][^\n#]*)$`) tried at `q`. The
      run of `#` must be two to six long, since a longer run leaves a `#`
      where the letter must be; `\s*` may run over line breaks; the group
      runs to the end of the line and fails on any later `#`. */
  function HeadingAt(t: string, q: nat): (r: Option<Heading>)
    requires q <= |t|
    ensures r.Some? ==> r.value.start == q < r.value.end <= |t|
    ensures r.Some? ==> r.value.end == |t| || t[r.value.end] == '\n'
    ensures r.Some? ==> r.value.name != [] && IsLetter(r.value.name[0])
    ensures r.Some? ==> '#' !in r.value.name && '\n' !in r.value.name
  {
    var i := SkipIn(t, q, {' ', '\t'});
    var h := SkipIn(t, i, {'#'});
    if !(2 <= h - i <= 6) then None
    else
      var j := SkipIn(t, h, Whitespace);
      if j == |t| || !IsLetter(t[j]) then None
      else
        var e := SkipOut(t, j + 1, {'\n', '#'});
        if e < |t| && t[e] == '#' then None
        else
          NameAvoids(t, j, e);
          Some(Heading(q, e, t[j..e]))
  }

  /** A letter, then a run free of newlines and `#`, holds neither. */
  lemma NameAvoids(t: string, j: nat, e: nat)
    requires j < e <= |t| && IsLetter(t[j])
    requires forall k :: j + 1 <= k < e ==> t[k] !in {'\n', '#'}
    ensures '#' !in t[j..e] && '\n' !in t[j..e]
  {
    forall k | j <= k < e
      ensures t[k] != '#' && t[k] != '\n'
    {
      if k > j {
        assert t[k] !in {'\n', '#'};
      }
    }
  }

  /** `HDR_LINE.finditer(t)` from position `q`: matches do not overlap, and
      the search resumes where the last match ended. */
  function HeadingsFrom(t: string, q: nat): (r: seq<Heading>)
    requires q <= |t|
    ensures WellPlaced(t, r)
    ensures forall k :: 0 <= k < |r| ==> q <= r[k].start
    decreases |t| - q
  {
    if q == |t| then []
    else if LineStart(t, q) && HeadingAt(t, q).Some? then
      var m := HeadingAt(t, q).value;
      [m] + HeadingsFrom(t, m.end)
    else HeadingsFrom(t, q + 1)
  }

  /** Headings lie inside the text, in order, without overlapping. */
  predicate WellPlaced(t: string, hs: seq<Heading>)
  {
    && (forall k :: 0 <= k < |hs| ==> hs[k].start < hs[k].end <= |t|)
    && (forall k, l :: 0 <= k < l < |hs| ==> hs[k].end <= hs[l].start)
  }

  function Headings(t: string): (hs: seq<Heading>)
    ensures WellPlaced(t, hs)
  {
    HeadingsFrom(t, 0)
  }

  /** The characters `normalize_heading` strips from the end of the word. */
  const HeadingPunct: set<char> := {':', '-', '\U{2014}', '\U{2013}'}

  /** `normalize_heading`: the first word of the heading, without trailing
      `:`, `-`, em or en dashes, lower-cased. (`raw.strip().split()` is
      `raw.split()`.) */
  function NormalizeHeading(raw: string): string
    requires raw != [] && IsLetter(raw[0])
  {
    var words := Words(raw);
    assert words != [] by { assert SkipIn(raw, 0, Whitespace) == 0; }
    Lower(RStripIn(words[0], HeadingPunct))
  }

  /** A heading whose first word is `w` followed by trailing punctuation
      normalises to `w` in lower case. */
  lemma NormalizeHeadingWord(w: string, p: string, rest: string)
    requires w != [] && IsLetter(w[0]) && w[|w| - 1] !in HeadingPunct
    requires forall m :: 0 <= m < |w| ==> !IsSpace(w[m])
    requires AllIn(p, HeadingPunct)
    requires rest == [] || IsSpace(rest[0])
    ensures NormalizeHeading(w + p + rest) == Lower(w)
  {
    FirstWordOf(w + p, rest);
    RStripInSuffix(w, p, HeadingPunct);
  }

  /** A heading of depth two is found, with the rest of the line as its
      group... */
  lemma HeadingDepthTwo(t: string)
    requires t == "## Summary"
    ensures HeadingAt(t, 0) == Some(Heading(0, 10, "Summary"))
  {
    SkipInIs(t, 0, 0, {' ', '\t'});
    SkipInIs(t, 0, 2, {'#'});
    SkipInIs(t, 2, 3, Whitespace);
    SkipOutIs(t, 4, 10, {'\n', '#'});
    assert t[3..10] == "Summary";
  }

  /** ...and so is one of depth three, trailing colon included... */
  lemma HeadingDepthThree(t: string)
    requires t == "### Summary:"
    ensures HeadingAt(t, 0) == Some(Heading(0, 12, "Summary:"))
  {
    SkipInIs(t, 0, 0, {' ', '\t'});
    SkipInIs(t, 0, 3, {'#'});
    SkipInIs(t, 3, 4, Whitespace);
    SkipOutIs(t, 5, 12, {'\n', '#'});
    assert t[4..12] == "Summary:";
  }

  /** ...while depth one is not a heading... */
  lemma HeadingDepthOne(t: string)
    requires t == "# Summary"
    ensures HeadingAt(t, 0) == None
  {
    SkipInIs(t, 0, 0, {' ', '\t'});
    SkipInIs(t, 0, 1, {'#'});
  }

  /** ...and neither is depth seven. */
  lemma HeadingDepthSeven(t: string)
    requires t == "####### Summary"
    ensures HeadingAt(t, 0) == None
  {
    SkipInIs(t, 0, 0, {' ', '\t'});
    SkipInIs(t, 0, 7, {'#'});
  }

  /** `Summary` normalises to "summary"... */
  lemma NormalizeHeadingPlain(h: string)
    requires h == "Summary"
    ensures NormalizeHeading(h) == "summary"
  {
    assert Lower(h) == "summary";
    assert h == h + "" + "";
    NormalizeHeadingWord(h, "", "");
  }

  /** ...and so does `Summary:`... */
  lemma NormalizeHeadingColon(h: string)
    requires h == "Summary:"
    ensures NormalizeHeading(h) == "summary"
  {
    var w := "Summary";
    assert Lower(w) == "summary";
    assert h == w + ":" + "";
    NormalizeHeadingWord(w, ":", "");
  }

  /** ...and `SUMMARY -`... */
  lemma NormalizeHeadingUpper(h: string)
    requires h == "SUMMARY -"
    ensures NormalizeHeading(h) == "summary"
  {
    var w := "SUMMARY";
    assert Lower(w) == "summary";
    assert h == w + "" + " -";
    NormalizeHeadingWord(w, "", " -");
  }

  /** ...and `Summary — notes`. */
  lemma NormalizeHeadingDash(h: string)
    requires h == "Summary \U{2014} notes"
    ensures NormalizeHeading(h) == "summary"
  {
    var w := "Summary";
    assert Lower(w) == "summary";
    assert h == w + "" + " \U{2014} notes";
    NormalizeHeadingWord(w, "", " \U{2014} notes");
  }

  /** The section a normalised heading names, trying `SECTION_ORDER` in
      order. */
  function CanonicalIn(base: string, cs: seq<SectionName>): (r: Option<SectionName>)
    ensures r.Some? ==> r.value in cs && base == Lower(Title(r.value))
    ensures r.None? ==> forall c :: c in cs ==> base != Lower(Title(c))
  {
    if cs == [] then None
    else if base == Lower(Title(cs[0])) then Some(cs[0])
    else CanonicalIn(base, cs[1..])
  }

  function HeadingSection(h: Heading): Option<SectionName>
  {
    if h.name != [] && IsLetter(h.name[0]) then CanonicalIn(NormalizeHeading(h.name), Order) else None
  }

  /** The text `slice_sections` works on: CRLF turned into LF, then the
      mojibake repaired. */
  function Prepared(text: string): string
  {
    Repaired(Replace(text, "\r\n", "\n"))
  }

  /** The stripped text between the end of heading `i` and the start of the
      next heading of any name (or the end of the text). */
  function Body(t: string, hs: seq<Heading>, i: nat): string
    requires i < |hs|
    requires WellPlaced(t, hs)
  {
    var stop := if i + 1 < |hs| then hs[i + 1].start else |t|;
    Strip(t[hs[i].end..stop])
  }

  /** For each of the first `n` headings of `t`, the section it names (if
      any) and its body. */
  function Entries(t: string, hs: seq<Heading>, n: nat): (es: seq<(Option<SectionName>, string)>)
    requires WellPlaced(t, hs) && n <= |hs|
    ensures |es| == n
    ensures forall k :: 0 <= k < n ==> es[k] == (HeadingSection(hs[k]), Body(t, hs, k))
  {
    seq(n, k requires 0 <= k < n => (HeadingSection(hs[k]), Body(t, hs, k)))
  }

  /** The index of the last of the first `n` entries that names `c`. */
  function LastNamed(es: seq<(Option<SectionName>, string)>, c: SectionName, n: nat): (r: Option<nat>)
    requires n <= |es|
    ensures r.Some? ==> r.value < n && es[r.value].0 == Some(c)
    ensures r.Some? ==> forall j :: r.value < j < n ==> es[j].0 != Some(c)
    ensures r.None? ==> forall j :: 0 <= j < n ==> es[j].0 != Some(c)
  {
    if n == 0 then None
    else if es[n - 1].0 == Some(c) then Some(n - 1)
    else LastNamed(es, c, n - 1)
  }

  /** The dictionary `slice_sections` holds after the first `n` headings:
      each named section set to its body, in heading order. */
  function Overwritten(es: seq<(Option<SectionName>, string)>, n: nat): map<SectionName, string>
    requires n <= |es|
  {
    if n == 0 then map[]
    else
      var m := Overwritten(es, n - 1);
      if es[n - 1].0.Some? then m[es[n - 1].0.value := es[n - 1].1] else m
  }

  /** Last wins: a section is present exactly when some heading names it,
      and it holds the body of the last heading that does. */
  lemma {:induction false} OverwrittenLastWins(es: seq<(Option<SectionName>, string)>, n: nat, c: SectionName)
    requires n <= |es|
    ensures c in Overwritten(es, n) <==> LastNamed(es, c, n).Some?
    ensures c in Overwritten(es, n) ==> Overwritten(es, n)[c] == es[LastNamed(es, c, n).value].1
  {
    if n > 0 {
      OverwrittenLastWins(es, n - 1, c);
    }
  }

  /** What `slice_sections(text)` returns. */
  function SlicedSections(text: string): map<SectionName, string>
  {
    var t := Prepared(text);
    var hs := Headings(t);
    Overwritten(Entries(t, hs, |hs|), |hs|)
  }

  /** The sections of a text: a section is present exactly when a heading of
      the prepared text names it... */
  lemma SlicedSectionsPresent(text: string, c: SectionName)
    ensures var hs := Headings(Prepared(text));
      c in SlicedSections(text) <==> exists i :: 0 <= i < |hs| && HeadingSection(hs[i]) == Some(c)
  {
    var t := Prepared(text);
    var hs := Headings(t);
    OverwrittenHas(Entries(t, hs, |hs|), c);
  }

  /** ...and holds the stripped body of the last such heading, up to the
      next heading of any name. */
  lemma SlicedSectionsLastWins(text: string, c: SectionName, i: nat)
    requires LastHeadingOf(Headings(Prepared(text)), c, i)
    ensures c in SlicedSections(text)
    ensures SlicedSections(text)[c] == Body(Prepared(text), Headings(Prepared(text)), i)
  {
    var t := Prepared(text);
    var hs := Headings(t);
    OverwrittenLast(Entries(t, hs, |hs|), c, i);
  }

  /** Heading `i` names `c` and no later heading does. */
  predicate LastHeadingOf(hs: seq<Heading>, c: SectionName, i: nat)
  {
    i < |hs| && HeadingSection(hs[i]) == Some(c) && forall j :: i < j < |hs| ==> HeadingSection(hs[j]) != Some(c)
  }

  /** A section is present once some entry names it. */
  lemma OverwrittenHas(es: seq<(Option<SectionName>, string)>, c: SectionName)
    ensures c in Overwritten(es, |es|) <==> exists i :: 0 <= i < |es| && es[i].0 == Some(c)
  {
    OverwrittenLastWins(es, |es|, c);
  }

  /** A section holds the body of the last entry naming it. */
  lemma OverwrittenLast(es: seq<(Option<SectionName>, string)>, c: SectionName, i: nat)
    requires i < |es| && es[i].0 == Some(c)
    requires forall j :: i < j < |es| ==> es[j].0 != Some(c)
    ensures c in Overwritten(es, |es|) && Overwritten(es, |es|)[c] == es[i].1
  {
    OverwrittenLastWins(es, |es|, c);
    LastNamedIs(es, c, |es|, i);
  }

  /** The last entry naming `c` is the one no later entry names `c` after. */
  lemma {:induction false} LastNamedIs(es: seq<(Option<SectionName>, string)>, c: SectionName, n: nat, i: nat)
    requires i < n <= |es| && es[i].0 == Some(c)
    requires forall j :: i < j < n ==> es[j].0 != Some(c)
    ensures LastNamed(es, c, n) == Some(i)
  {
    if n - 1 != i {
      LastNamedIs(es, c, n - 1, i);
    }
  }

  /** The loop of `slice_sections`: for each heading in turn, a canonical
      name takes the heading's body, overwriting an earlier heading of the
      same name. */
  method AssignSections(es: seq<(Option<SectionName>, string)>) returns (sections: map<SectionName, string>)
    ensures sections == Overwritten(es, |es|)
  {
    sections := map[];
    var i := 0;
    while i < |es|
      invariant 0 <= i <= |es|
      invariant sections == Overwritten(es, i)
    {
      var (base, body) := es[i];
      if base.Some? {
        sections := sections[base.value := body];
      }
      i := i + 1;
    }
  }

  /** `slice_sections`. */
  method SliceSections(text: string) returns (sections: map<SectionName, string>)
    ensures sections == SlicedSections(text)
  {
    var t := FixMojibake(Replace(text, "\r\n", "\n"));
    var hs := Headings(t);
    if hs == [] {
      return map[];
    }
    sections := AssignSections(Entries(t, hs, |hs|));
  }

  // ---------------------------------------------------------------------
  // Bullets: LEAD_TOKEN_RE, collect_bullets, clean_item_text

  const DigitChars: set<char> := {'0', '1', '2', '3', '4', '5', '6', '7', '8', '9'}

  /** The glyphs `• ‣ ⁃ ∙ ▪ ▫ ● ◦ – —` accepted as list markers. */
  const BulletGlyphs: set<char> :=
    {'\U{2022}', '\U{2023}', '\U{2043}', '\U{2219}', '\U{25AA}', '\U{25AB}', '\U{25CF}', '\U{25E6}',
     '\U{2013}', '\U{2014}'}

  /** The end of a list marker that starts at `i`: `-`, `*` or `+`; digits
      then `.` or `)`; a checkbox `[ ]`, `[x]`, `[X]` or `[-]`; or a glyph. */
  function MarkerEnd(s: string, i: nat): (r: Option<nat>)
    requires i <= |s|
    ensures r.Some? ==> i < r.value <= |s|
  {
    if i == |s| then None
    else if s[i] in {'-', '*', '+'} then Some(i + 1)
    else if s[i] in DigitChars then
      var j := SkipIn(s, i, DigitChars);
      if j < |s| && s[j] in {'.', ')'} then Some(j + 1) else None
    else if s[i] == '[' && i + 2 < |s| && s[i + 1] in {' ', 'x', 'X', '-'} && s[i + 2] == ']' then Some(i + 3)
    else if s[i] in BulletGlyphs then Some(i + 1)
    else None
  }

  /** `LEAD_TOKEN_RE.match(s)`: leading whitespace, an optional backslash, a
      marker and at least one whitespace character; the end of the match.
      `BULLET_RE` is the same pattern without the backslash, so a line
      `BULLET_RE` matches is one this matches. */
  function LeadToken(s: string): (r: Option<nat>)
    ensures r.Some? ==> 0 < r.value <= |s|
  {
    var a := SkipIn(s, 0, Whitespace);
    var b := if a < |s| && s[a] == '\\' then a + 1 else a;
    var m := MarkerEnd(s, b);
    if m.Some? && m.value < |s| && IsSpace(s[m.value]) then Some(SkipIn(s, m.value, Whitespace))
    else None
  }

  /** The marker strings themselves. */
  predicate IsMarker(m: string)
  {
    || m in ["-", "*", "+", "[ ]", "[x]", "[X]", "[-]"]
    || (|m| == 1 && m[0] in BulletGlyphs)
    || (|m| >= 2 && AllIn(m[..|m| - 1], DigitChars) && m[|m| - 1] in {'.', ')'})
  }

  /** A line `collect_bullets` keeps: not blank, and its right-stripped form
      starts with a marker. */
  predicate IsBulletLine(ln: string)
  {
    var s := RStrip(ln);
    Strip(s) != [] && LeadToken(s).Some?
  }

  /** The bullets of `lines`, stripped, in order. */
  function BulletsOf(lines: seq<string>): seq<string>
  {
    if lines == [] then []
    else
      var last := lines[|lines| - 1];
      BulletsOf(lines[..|lines| - 1]) + (if IsBulletLine(last) then [Strip(RStrip(last))] else [])
  }

  /** `collect_bullets`. */
  method CollectBullets(block: string) returns (out: seq<string>)
    ensures out == BulletsOf(SplitLines(block))
  {
    out := [];
    if block == [] {
      return;
    }
    var lines := SplitLines(block);
    var i := 0;
    while i < |lines|
      invariant 0 <= i <= |lines|
      invariant out == BulletsOf(lines[..i])
    {
      assert lines[..i + 1][..i] == lines[..i];
      var s := RStrip(lines[i]);
      if Strip(s) != [] && LeadToken(s).Some? {
        out := out + [Strip(s)];
      }
      i := i + 1;
    }
    assert lines[..|lines|] == lines;
  }

  /** Every collected bullet is non-empty and already stripped. */
  lemma {:induction false} BulletsStripped(lines: seq<string>)
    ensures forall k :: 0 <= k < |BulletsOf(lines)| ==>
      BulletsOf(lines)[k] != [] && Strip(BulletsOf(lines)[k]) == BulletsOf(lines)[k]
  {
    if lines != [] {
      BulletsStripped(lines[..|lines| - 1]);
      var last := lines[|lines| - 1];
      StripIdempotent(RStrip(last));
    }
  }

  /** `clean_item_text`: the text after the list marker, stripped, without
      leading backslashes. */
  function CleanItemText(line: string): string
  {
    var lead := LeadToken(line);
    var s := Strip(if lead.Some? then line[lead.value..] else line);
    Strip(LStripIn(s, {'\\'}))
  }

  /** A marker string found at `b` is recognised as a marker ending where
      it ends. */
  lemma MarkerEndOf(s: string, b: nat, marker: string)
    requires IsMarker(marker) && b + |marker| <= |s| && s[b..b + |marker|] == marker
    ensures MarkerEnd(s, b) == Some(b + |marker|)
  {
    if marker in ["-", "*", "+", "[ ]", "[x]", "[X]", "[-]"] {
      MarkerEndWord(s, b, marker);
    } else if |marker| == 1 {
      assert s[b] == marker[0];
    } else {
      MarkerEndDigits(s, b, marker);
    }
  }

  lemma MarkerEndWord(s: string, b: nat, marker: string)
    requires marker in ["-", "*", "+", "[ ]", "[x]", "[X]", "[-]"]
    requires b + |marker| <= |s| && s[b..b + |marker|] == marker
    ensures MarkerEnd(s, b) == Some(b + |marker|)
  {
    assert forall k :: 0 <= k < |marker| ==> s[b + k] == marker[k];
  }

  lemma MarkerEndDigits(s: string, b: nat, marker: string)
    requires |marker| >= 2 && AllIn(marker[..|marker| - 1], DigitChars) && marker[|marker| - 1] in {'.', ')'}
    requires b + |marker| <= |s| && s[b..b + |marker|] == marker
    ensures MarkerEnd(s, b) == Some(b + |marker|)
  {
    var d := |marker| - 1;
    assert forall k :: b <= k < b + d ==> s[k] == marker[..d][k - b];
    assert s[b] == marker[..d][0];
    assert s[b + d] == marker[d];
    SkipInIs(s, b, b + d, DigitChars);
  }

  /** A marker starts with neither whitespace nor a backslash. */
  lemma MarkerHead(marker: string)
    requires IsMarker(marker)
    ensures marker != [] && marker[0] != '\\' && marker[0] !in Whitespace
  {
    if marker in ["-", "*", "+", "[ ]", "[x]", "[X]", "[-]"] {
      WordMarkerHead(marker);
    } else if |marker| == 1 {
      GlyphHead(marker[0]);
    } else {
      assert marker[..|marker| - 1][0] == marker[0];
      DigitHead(marker[0]);
    }
  }

  lemma GlyphHead(c: char)
    requires c in BulletGlyphs
    ensures c != '\\' && c !in Whitespace
  {
  }

  lemma DigitHead(c: char)
    requires c in DigitChars
    ensures c != '\\' && c !in Whitespace
  {
  }

  lemma WordMarkerHead(marker: string)
    requires marker in ["-", "*", "+", "[ ]", "[x]", "[X]", "[-]"]
    ensures marker != [] && (marker[0] == '-' || marker[0] == '*' || marker[0] == '+' || marker[0] == '[')
  {
  }

  /** `LEAD_TOKEN_RE` described position by position: indentation up to
      `a`, an optional backslash, a marker from `b` to `m` and whitespace
      from `m` to `e`. */
  lemma LeadTokenAt(s: string, a: nat, b: nat, m: nat, e: nat)
    requires a < |s| && (forall k :: 0 <= k < a ==> s[k] in Whitespace) && s[a] !in Whitespace
    requires b == if s[a] == '\\' then a + 1 else a
    requires b <= |s| && MarkerEnd(s, b) == Some(m)
    requires m < e <= |s| && (forall k :: m <= k < e ==> s[k] in Whitespace)
    requires e == |s| || s[e] !in Whitespace
    ensures LeadToken(s) == Some(e)
  {
    SkipInIs(s, 0, a, Whitespace);
    SkipInIs(s, m, e, Whitespace);
  }

  /** Every marker style, escaped or not and however indented, yields the
      same content. */
  lemma CleanItemTextMarker(indent: string, escape: string, marker: string, gap: string, content: string)
    requires AllIn(indent, Whitespace) && escape in ["", "\\"] && IsMarker(marker)
    requires gap != [] && AllIn(gap, Whitespace)
    requires content != [] && Strip(content) == content && content[0] != '\\'
    ensures CleanItemText(indent + escape + marker + gap + content) == content
  {
    var s := indent + escape + marker + gap + content;
    var e := |indent| + |escape| + |marker| + |gap|;
    ItemLeadToken(indent, escape, marker, gap, content, s, e);
    CleanItemTextAt(s, e, content);
  }

  /** The lead token of a bullet line ends where its content starts. */
  lemma ItemLeadToken(indent: string, escape: string, marker: string, gap: string, content: string,
                      s: string, e: nat)
    requires AllIn(indent, Whitespace) && escape in ["", "\\"] && IsMarker(marker)
    requires gap != [] && AllIn(gap, Whitespace)
    requires content != [] && content[0] !in Whitespace
    requires s == indent + escape + marker + gap + content
    requires e == |indent| + |escape| + |marker| + |gap|
    ensures e <= |s| && s[e..] == content && LeadToken(s) == Some(e)
  {
    var a := |indent|;
    var b := a + |escape|;
    var m := b + |marker|;
    MarkerHead(marker);
    ItemLayout(indent, escape, marker, gap, content, s, a, b, m, e);
    MarkerEndOf(s, b, marker);
    LeadTokenAt(s, a, b, m, e);
  }

  /** Once the lead token ends at `e`, a clean remainder is the content. */
  lemma CleanItemTextAt(s: string, e: nat, content: string)
    requires e <= |s| && LeadToken(s) == Some(e) && s[e..] == content
    requires content != [] && Strip(content) == content && content[0] != '\\'
    ensures CleanItemText(s) == content
  {
    assert LStripIn(content, {'\\'}) == content;
  }

  /** Where each part of a bullet line sits. */
  lemma ItemLayout(indent: string, escape: string, marker: string, gap: string, content: string, s: string,
                   a: nat, b: nat, m: nat, e: nat)
    requires s == indent + escape + marker + gap + content
    requires AllIn(indent, Whitespace) && AllIn(gap, Whitespace) && marker != []
    requires escape == "" || escape == "\\"
    requires a == |indent| && b == a + |escape| && m == b + |marker| && e == m + |gap|
    ensures e <= |s| && s[e..] == content
    ensures forall k :: 0 <= k < a ==> s[k] in Whitespace
    ensures s[a] == (if escape == "" then marker[0] else '\\')
    ensures m <= |s| && s[b..m] == marker
    ensures forall k :: m <= k < e ==> s[k] in Whitespace
  {
    assert forall k :: 0 <= k < a ==> s[k] == indent[k];
    assert forall k :: m <= k < e ==> s[k] == gap[k - m];
  }

  // ---------------------------------------------------------------------
  // normalize_block_text

  /** `re.sub(r'^[ \t]*\\(?=[-*+])', "", ln)`: leading blanks and a backslash
      go when a `-`, `*` or `+` follows. */
  function DropEscape(ln: string): string
  {
    var a := SkipIn(ln, 0, {' ', '\t'});
    if a + 1 < |ln| && ln[a] == '\\' && ln[a + 1] in {'-', '*', '+'} then ln[a + 1..] else ln
  }

  /** Dropping the escape twice drops nothing more. */
  lemma DropEscapeIdempotent(ln: string)
    ensures DropEscape(DropEscape(ln)) == DropEscape(ln)
  {
    var r := DropEscape(ln);
    if r != ln {
      assert r[0] in {'-', '*', '+'};
      assert SkipIn(r, 0, {' ', '\t'}) == 0;
    }
  }

  /** The escaped bullet `\- item` becomes `- item`. */
  lemma DropEscapeExample()
    ensures DropEscape("  \\- item") == "- item"
  {
    var ln := "  \\- item";
    assert SkipIn(ln, 0, {' ', '\t'}) == 2;
    assert ln[3..] == "- item";
  }

  function DropEscapes(lines: seq<string>): (r: seq<string>)
    ensures |r| == |lines|
    ensures forall k :: 0 <= k < |lines| ==> r[k] == DropEscape(lines[k])
  {
    if lines == [] then [] else DropEscapes(lines[..|lines| - 1]) + [DropEscape(lines[|lines| - 1])]
  }

  lemma DropEscapesSnoc(src: seq<string>, i: nat)
    requires i < |src|
    ensures DropEscapes(src[..i + 1]) == DropEscapes(src[..i]) + [DropEscape(src[i])]
  {
    TakeSnoc(src, i);
  }

  /** What `normalize_block_text(block)` returns. */
  function NormalizedBlock(block: string): string
  {
    if block == [] then [] else Strip(Join("\n", DropEscapes(SplitLines(Repaired(block)))))
  }

  /** `normalize_block_text`. */
  method NormalizeBlockText(block: string) returns (r: string)
    ensures r == NormalizedBlock(block)
  {
    if block == [] {
      return [];
    }
    var fixed := FixMojibake(block);
    var src := SplitLines(fixed);
    var lines: seq<string> := [];
    var i := 0;
    while i < |src|
      invariant 0 <= i <= |src|
      invariant lines == DropEscapes(src[..i])
    {
      DropEscapesSnoc(src, i);
      lines := lines + [DropEscape(src[i])];
      i := i + 1;
    }
    assert src[..|src|] == src;
    r := Strip(Join("\n", lines));
  }

  /** The normalised block is already stripped: it neither starts nor ends
      with whitespace. */
  lemma NormalizedBlockStripped(block: string)
    ensures Strip(NormalizedBlock(block)) == NormalizedBlock(block)
  {
    if block != [] {
      StripIdempotent(Join("\n", DropEscapes(SplitLines(Repaired(block)))));
    }
  }

  // ---------------------------------------------------------------------
  // detect_priority, strip_priority_tag

  /** The tags of `\[(high|medium|low|p0|p1|p2)\]`, in alternation order. */
  const TagWords: seq<string> := ["high", "medium", "low", "p0", "p1", "p2"]

  /** The first of `words` that, case-insensitively, sits between `[` at `i`
      and a closing `]`; the tag comes back lower-cased. */
  function TagIn(s: string, i: nat, words: seq<string>): (r: Option<string>)
    requires i < |s|
    ensures r.Some? ==> r.value in words && i + |r.value| + 1 < |s|
    ensures r.Some? ==> s[i] == '[' && Lower(s[i + 1..i + 1 + |r.value|]) == r.value && s[i + 1 + |r.value|] == ']'
  {
    if words == [] || s[i] != '[' then None
    else
      var w := words[0];
      if i + 1 + |w| < |s| && Lower(s[i + 1..i + 1 + |w|]) == w && s[i + 1 + |w|] == ']' then Some(w)
      else TagIn(s, i, words[1..])
  }

  function TagAt(s: string, i: nat): (r: Option<string>)
    requires i < |s|
    ensures r.Some? ==> r.value in TagWords && i + |r.value| + 1 < |s|
  {
    TagIn(s, i, TagWords)
  }

  /** `re.search(r"\[(high|medium|low|p0|p1|p2)\]", s, re.I)` from `i`: the
      leftmost tag, lower-cased. */
  function FirstTag(s: string, i: nat): (r: Option<string>)
    requires i <= |s|
    ensures r.Some? ==> r.value in TagWords
    decreases |s| - i
  {
    if i == |s| then None
    else if TagAt(s, i).Some? then TagAt(s, i)
    else FirstTag(s, i + 1)
  }

  /** `P_EQUIV.get(tag, tag)`. */
  function Equivalent(tag: string): string
  {
    if tag == "p0" then "high" else if tag == "p1" then "medium" else if tag == "p2" then "low" else tag
  }

  /** `PRIORITY_RANK.get(label, 3)`. */
  function RankOf(level: string): int
  {
    if level == "high" then 0 else if level == "medium" then 1 else if level == "low" then 2 else 3
  }

  /** `detect_priority`: the label and rank of the first tag, `p0`/`p1`/`p2`
      standing for high/medium/low; ("other", 3) without a tag. */
  function DetectPriority(line: string): (r: (string, int))
    ensures FirstTag(line, 0).None? ==> r == ("other", 3)
    ensures FirstTag(line, 0) in {Some("high"), Some("p0")} ==> r == ("high", 0)
    ensures FirstTag(line, 0) in {Some("medium"), Some("p1")} ==> r == ("medium", 1)
    ensures FirstTag(line, 0) in {Some("low"), Some("p2")} ==> r == ("low", 2)
  {
    match FirstTag(line, 0)
    case None => ("other", 3)
    case Some(tag) =>
      var level := Equivalent(tag);
      (level, RankOf(level))
  }

  /** The label and the rank always agree, and the label is one of the four
      bucket names. */
  lemma DetectPriorityConsistent(line: string)
    ensures DetectPriority(line).0 in ["high", "medium", "low", "other"]
    ensures DetectPriority(line).1 == RankOf(DetectPriority(line).0)
  {
  }

  /** `strip_priority_tag`: a tag at the very start (after whitespace) goes,
      with the whitespace after it; what is left is a suffix of the text. */
  function StripPriorityTag(s: string): (r: string)
    ensures |r| <= |s| && r == s[|s| - |r|..]
  {
    s[TagEnd(s)..]
  }

  /** Where `^\s*\[(?:high|medium|low|p0|p1|p2)\]\s*` stops matching, or 0
      when it does not match. */
  function TagEnd(s: string): (k: nat)
    ensures k <= |s|
  {
    var a := SkipIn(s, 0, Whitespace);
    if a == |s| then 0
    else match TagAt(s, a)
      case None => 0
      case Some(w) => SkipIn(s, a + |w| + 2, Whitespace)
  }

  /** `[` at `i`, then `w` in any ASCII case, then `]`. */
  predicate Bracketed(t: string, i: nat, w: string)
  {
    i + |w| + 1 < |t| && t[i] == '[' && Lower(t[i + 1..i + 1 + |w|]) == w && t[i + 1 + |w|] == ']'
  }

  /** `t` opens with `[`, a tag word in any ASCII case, and `]`. */
  predicate OpensWithTag(t: string)
  {
    exists w :: w in TagWords && Bracketed(t, 0, w)
  }

  /** Text with no tag after its leading whitespace comes back unchanged. */
  lemma StripPriorityTagUntagged(ws: string, t: string)
    requires AllIn(ws, Whitespace) && (t == [] || !IsSpace(t[0]))
    requires !OpensWithTag(t)
    ensures StripPriorityTag(ws + t) == ws + t
  {
    var s, a := ws + t, |ws|;
    assert forall k :: 0 <= k < a ==> s[k] == ws[k];
    assert s[a..] == t;
    SkipInIs(s, 0, a, Whitespace);
    if a < |s| && TagAt(s, a).Some? {
      TagAtOpens(s, a);
      assert false;
    }
    assert TagEnd(s) == 0;
  }

  /** A tag found at `a` opens the text from `a` on. */
  lemma TagAtOpens(s: string, a: nat)
    requires a < |s| && TagAt(s, a).Some?
    ensures OpensWithTag(s[a..])
  {
    var w := TagAt(s, a).value;
    assert w in TagWords && Bracketed(s, a, w);
    BracketedFrom(s, a, w);
  }

  /** A bracketed word at `a` is one at the start of `s[a..]`. */
  lemma BracketedFrom(s: string, a: nat, w: string)
    requires Bracketed(s, a, w)
    ensures Bracketed(s[a..], 0, w)
  {
    assert s[a..][1..|w| + 1] == s[a + 1..a + 1 + |w|];
  }

  /** Leading whitespace, a tag word `t` in any ASCII case between brackets,
      and whitespace all go: what is left is `rest`. */
  lemma StripPriorityTagOf(ws: string, t: string, ws': string, rest: string)
    requires AllIn(ws, Whitespace) && AllIn(ws', Whitespace)
    requires Lower(t) in TagWords
    requires rest == [] || !IsSpace(rest[0])
    ensures StripPriorityTag(ws + "[" + t + "]" + ws' + rest) == rest
  {
    var s := ws + "[" + t + "]" + ws' + rest;
    TaggedLayout(ws, t, ws', rest);
    StripTagged(s, |ws|, t, |ws| + |t| + 2 + |ws'|);
  }

  /** Where the pieces of `ws + "[" + t + "]" + ws' + rest` lie. */
  lemma TaggedLayout(ws: string, t: string, ws': string, rest: string)
    ensures var s, a := ws + "[" + t + "]" + ws' + rest, |ws|;
      var b := a + |t| + 2;
      && b + |ws'| <= |s| && s[a] == '[' && s[a + 1..a + 1 + |t|] == t && s[a + 1 + |t|] == ']'
      && (forall k :: 0 <= k < a ==> s[k] == ws[k])
      && (forall k :: b <= k < b + |ws'| ==> s[k] == ws'[k - b])
      && s[b + |ws'|..] == rest
  {
    var s := ws + "[" + t + "]" + ws' + rest;
    assert s == ws + ("[" + t + "]" + ws' + rest);
  }

  /** A tag `t` between `[` at `a` and `]`, after whitespace only and before
      whitespace that runs up to `c`, is stripped with that whitespace. */
  lemma StripTagged(s: string, a: nat, t: string, c: nat)
    requires a + |t| + 2 <= c <= |s| && s[a] == '[' && s[a + 1..a + 1 + |t|] == t && s[a + 1 + |t|] == ']'
    requires Lower(t) in TagWords
    requires forall k :: 0 <= k < a ==> s[k] in Whitespace
    requires forall k :: a + |t| + 2 <= k < c ==> s[k] in Whitespace
    requires c == |s| || s[c] !in Whitespace
    ensures StripPriorityTag(s) == s[c..]
  {
    SkipInIs(s, 0, a, Whitespace);
    TagAtWord(s, a, t);
    SkipInIs(s, a + |t| + 2, c, Whitespace);
    assert TagEnd(s) == c;
  }

  /** The tag at `a` is `t`, lower-cased, and as long as `t`. */
  lemma TagAtWord(s: string, a: nat, t: string)
    requires a + |t| + 1 < |s| && s[a] == '[' && s[a + 1..a + 1 + |t|] == t && s[a + 1 + |t|] == ']'
    requires Lower(t) in TagWords
    ensures TagAt(s, a).Some? && |TagAt(s, a).value| == |t|
  {
    TagWordsUnbracketed();
    TagInFinds(s, a, TagWords, t);
  }

  /** No tag word holds a `]`, in any case. */
  lemma TagWordsUnbracketed()
    ensures forall w :: w in TagWords ==> ']' !in w
  {
    assert TagWords == ["high", "medium", "low", "p0", "p1", "p2"];
  }

  /** A tag word `t` between a `[` at `i` and a `]` is found, whole: no other
      word can end at another `]`, since no word holds one. */
  lemma {:induction false} TagInFinds(s: string, i: nat, words: seq<string>, t: string)
    requires i + 1 + |t| < |s| && s[i] == '[' && s[i + 1..i + 1 + |t|] == t && s[i + 1 + |t|] == ']'
    requires Lower(t) in words && forall w :: w in words ==> ']' !in w
    ensures TagIn(s, i, words).Some? && |TagIn(s, i, words).value| == |t|
    decreases |words|
  {
    var w := words[0];
    assert w in words;
    if !(i + 1 + |w| < |s| && Lower(s[i + 1..i + 1 + |w|]) == w && s[i + 1 + |w|] == ']') {
      assert Lower(t) != w;
      assert Lower(t) in words[1..];
      TagInFinds(s, i, words[1..], t);
    }
  }
}
