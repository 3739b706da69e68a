/**
 * The parser and renderer of the older script at the repository root
 * (team_email_digest.py): `parse_sections`, `_parse_actions`,
 * `build_digest` without its timestamp and version, and
 * `render_markdown`.
 *
 * `ACTION_KV_RE` is left uninterpreted: the parameter `kv` gives the
 * groups of its match on a cleaned line, or None when it does not match.
 */
module LegacyDigest {
  import opened Wrappers
  import opened Text
  import Sorting
  import opened LegacyText
  import Dates

  // ---------------------------------------------------------------------
  // _parse_actions

  /** The named groups of an `ACTION_KV_RE` match; a group that took no
      part is "". */
  datatype KvGroups = KvGroups(title: string, owner: string, due: string, priority: string)

  /** One structured action: `owner`, `due` and `priority` are keys that
      are present only when non-empty. */
  datatype Action = Action(title: string, owner: Option<string>, due: Option<string>, priority: Option<string>)

  function Present(v: string): (r: Option<string>)
    ensures r.Some? <==> v != []
    ensures r.Some? ==> r.value == v
  {
    if v == [] then None else Some(v)
  }

  /** `_norm_space(_strip_bullet(raw))`. */
  function CleanLine(raw: string): string
  {
    NormSpace(StripBullet(raw))
  }

  predicate NonBlank(t: string)
  {
    t != []
  }

  /** The action built from one cleaned, non-empty line. */
  function ParseAction(text: string, kv: string -> Option<KvGroups>): Action
  {
    match kv(text)
    case None => Action(text, None, None, None)
    case Some(g) =>
      var due := Strip(g.due);
      var prio := Strip(g.priority);
      Action(Strip(g.title), Present(Strip(g.owner)),
        Present(if due != [] then NormalizeDate(due) else due),
        if prio != [] then Some(Lower(prio)) else None)
  }

  /** A line the pattern does not match is kept whole as the title; the
      optional keys appear only with non-empty values: the owner stripped,
      the due date as written or as a real ISO date, the priority
      lower-cased. */
  lemma ParseActionFields(text: string, kv: string -> Option<KvGroups>)
    ensures var a := ParseAction(text, kv);
      && (kv(text).None? ==> a == Action(text, None, None, None))
      && (a.owner.Some? ==> a.owner.value != [] && Strip(a.owner.value) == a.owner.value)
      && (a.due.Some? ==>
            kv(text).Some? && a.due.value != []
            && (a.due.value == Strip(kv(text).value.due)
                || (Dates.IsoShaped(a.due.value) && Dates.ParseIso(a.due.value).Some?)))
      && (a.priority.Some? ==> a.priority.value != [] && Lower(a.priority.value) == a.priority.value)
  {
    if kv(text).Some? {
      var g := kv(text).value;
      StripIdempotent(g.owner);
      StripIdempotent(g.due);
      NormalizeDateResult(Strip(g.due));
      LowerIdempotent(Strip(g.priority));
    }
  }

  /** The actions of `lines`, in order. */
  function ParsedActions(lines: seq<string>, kv: string -> Option<KvGroups>): (r: seq<Action>)
  {
    if lines == [] then []
    else
      var init := ParsedActions(lines[..|lines| - 1], kv);
      var text := CleanLine(lines[|lines| - 1]);
      if text == [] then init else init + [ParseAction(text, kv)]
  }

  /** `_parse_actions`. */
  method ParseActions(lines: seq<string>, kv: string -> Option<KvGroups>) returns (out: seq<Action>)
    ensures out == ParsedActions(lines, kv)
  {
    out := [];
    for i := 0 to |lines|
      invariant out == ParsedActions(lines[..i], kv)
    {
      ParsedActionsNext(lines, i, kv);
      var text := CleanLine(lines[i]);
      if text == [] {
        continue;
      }
      out := out + [ParseAction(text, kv)];
    }
    assert lines[..|lines|] == lines;
  }

  /** One more line of `_parse_actions`: kept, parsed, unless it cleans to
      nothing. */
  lemma ParsedActionsNext(lines: seq<string>, i: nat, kv: string -> Option<KvGroups>)
    requires i < |lines|
    ensures var text := CleanLine(lines[i]);
      ParsedActions(lines[..i + 1], kv)
        == ParsedActions(lines[..i], kv) + (if text == [] then [] else [ParseAction(text, kv)])
  {
    assert lines[..i + 1][..i] == lines[..i];
  }

  /** The actions are, one for one, the lines that are not empty once
      cleaned, each parsed. */
  lemma {:induction false} ParsedActionsAre(lines: seq<string>, kv: string -> Option<KvGroups>)
    ensures ParsedActions(lines, kv) == Sorting.Map(Sorting.Filter(Sorting.Map(lines, CleanLine), NonBlank), ParseWith(kv))
  {
    if lines != [] {
      var init := lines[..|lines| - 1];
      var last := lines[|lines| - 1];
      ParsedActionsAre(init, kv);
      assert lines == init + [last];
      PipelineSnoc(init, last, CleanLine, NonBlank, ParseWith(kv));
    }
  }

  /** `ParseAction` with the pattern fixed. */
  function ParseWith(kv: string -> Option<KvGroups>): string -> Action
  {
    t => ParseAction(t, kv)
  }

  lemma FilterSnoc<T>(xs: seq<T>, x: T, p: T -> bool)
    ensures Sorting.Filter(xs + [x], p) == Sorting.Filter(xs, p) + (if p(x) then [x] else [])
  {
    Sorting.FilterAppend(xs, [x], p);
    assert [x][1..] == [];
  }

  /** One more input through a map, a filter and a map. */
  lemma PipelineSnoc<T, U, V>(xs: seq<T>, x: T, f: T -> U, p: U -> bool, g: U -> V)
    ensures Sorting.Map(Sorting.Filter(Sorting.Map(xs + [x], f), p), g)
         == Sorting.Map(Sorting.Filter(Sorting.Map(xs, f), p), g) + (if p(f(x)) then [g(f(x))] else [])
  {
    MapSnoc(xs, x, f);
    FilterSnoc(Sorting.Map(xs, f), f(x), p);
    Sorting.MapAppend(Sorting.Filter(Sorting.Map(xs, f), p), if p(f(x)) then [f(x)] else [], g);
  }

  lemma MapSnoc<T, U>(xs: seq<T>, x: T, f: T -> U)
    ensures Sorting.Map(xs + [x], f) == Sorting.Map(xs, f) + [f(x)]
  {
  }

  // ---------------------------------------------------------------------
  // parse_sections

  /** Every key has a list. */
  predicate Full(m: map<Key, seq<string>>)
  {
    forall k: Key :: k in m
  }

  lemma AllKeys(k: Key)
    ensures k in Keys
  {
  }

  /** The six empty lists `parse_sections` starts from. */
  function Fresh(): (m: map<Key, seq<string>>)
    ensures Full(m) && forall k :: m[k] == []
  {
    forall k: Key ensures k in Keys { AllKeys(k); }
    map k | k in Keys :: []
  }

  /** `result[key].append(content)`. */
  function Add(m: map<Key, seq<string>>, k: Key, x: string): (r: map<Key, seq<string>>)
    requires Full(m)
    ensures Full(r)
  {
    m[k := m[k] + [x]]
  }

  /** What one line is to `parse_sections`: blank, a header with its
      trailing text and that text cleaned, or body text cleaned. */
  datatype Kind = Blank | Header(key: Key, trailing: string, content: string) | Body(content: string)

  /** `raw.rstrip()`, then the tests of the loop body. */
  function Classify(raw: string): Kind
    requires '\n' !in raw
  {
    var line := RStrip(raw);
    assert forall m :: 0 <= m < |line| ==> line[m] == raw[m];
    if Strip(line) == [] then Blank
    else
      match MatchHeader(line)
      case Some((key, trailing)) => Header(key, trailing, CleanLine(trailing))
      case None => Body(CleanLine(line))
  }

  lemma ClassifyBlank(raw: string)
    requires '\n' !in raw && Strip(RStrip(raw)) == []
    ensures Classify(raw) == Blank
  {
  }

  lemma ClassifyHeaderLine(raw: string)
    requires '\n' !in raw && Strip(RStrip(raw)) != []
    requires '\n' !in RStrip(raw) && MatchHeader(RStrip(raw)).Some?
    ensures Classify(raw) == Header(MatchHeader(RStrip(raw)).value.0, MatchHeader(RStrip(raw)).value.1,
      CleanLine(MatchHeader(RStrip(raw)).value.1))
  {
  }

  lemma ClassifyBodyLine(raw: string)
    requires '\n' !in raw && Strip(RStrip(raw)) != []
    requires '\n' !in RStrip(raw) && MatchHeader(RStrip(raw)).None?
    ensures Classify(raw) == Body(CleanLine(RStrip(raw)))
  {
  }

  /** The lists filled so far and the current section. */
  datatype Scan = Scan(lists: map<Key, seq<string>>, current: Option<Key>)

  /** One line of the loop: a blank line is skipped; a header makes its key
      current and adds its trailing content; body text goes to the current
      section, or to Summary before the first header. Empty content is
      never added. */
  function Step(st: Scan, kind: Kind): (r: Scan)
    requires Full(st.lists)
    ensures Full(r.lists)
  {
    match kind
    case Blank => st
    case Header(key, trailing, content) =>
      Scan(if trailing != [] && content != [] then Add(st.lists, key, content) else st.lists, Some(key))
    case Body(content) =>
      var bucket := if st.current.Some? then st.current.value else Summary;
      Scan(if content != [] then Add(st.lists, bucket, content) else st.lists, st.current)
  }

  /** The loop of `parse_sections` over classified lines. */
  function Run(kinds: seq<Kind>): (r: Scan)
    ensures Full(r.lists)
  {
    if kinds == [] then Scan(Fresh(), None)
    else Step(Run(kinds[..|kinds| - 1]), kinds[|kinds| - 1])
  }

  /** Lines of text, as `splitlines()` gives them. */
  predicate OneLineEach(lines: seq<string>)
  {
    forall i :: 0 <= i < |lines| ==> '\n' !in lines[i]
  }

  /** Each line classified. */
  function Kinds(lines: seq<string>): (r: seq<Kind>)
    requires OneLineEach(lines)
    ensures |r| == |lines|
  {
    if lines == [] then [] else Kinds(lines[..|lines| - 1]) + [Classify(lines[|lines| - 1])]
  }

  lemma {:induction false} KindsAt(lines: seq<string>, i: nat)
    requires OneLineEach(lines) && i < |lines|
    ensures Kinds(lines)[i] == Classify(lines[i])
  {
    if i < |lines| - 1 {
      KindsAt(lines[..|lines| - 1], i);
    }
  }

  lemma ScanNext(kinds: seq<Kind>, i: nat, st: Scan, st': Scan)
    requires i < |kinds|
    requires st == Run(kinds[..i]) && st' == Step(st, kinds[i])
    ensures st' == Run(kinds[..i + 1])
  {
    assert kinds[..i + 1][..i] == kinds[..i];
  }

  /** The pieces of `splitlines()` hold no newline. */
  lemma LinesOfText(text: string)
    ensures OneLineEach(SplitLines(text))
  {
    assert '\n' in LineBreaks;
  }

  /** Each list without repeats. */
  function Deduped(m: map<Key, seq<string>>): (r: map<Key, seq<string>>)
    requires Full(m)
    ensures Full(r)
  {
    forall k: Key ensures k in Keys { AllKeys(k); }
    map k | k in Keys :: Unique(m[k])
  }

  /** What `parse_sections` returns. */
  function Sectioned(text: string): (r: map<Key, seq<string>>)
    ensures Full(r)
  {
    LinesOfText(text);
    Deduped(Run(Kinds(SplitLines(text))).lists)
  }

  /** `parse_sections`: the loop over the lines, then each list through
      `_unique_preserve_order`. */
  method ParseSections(text: string) returns (result: map<Key, seq<string>>)
    ensures result == Sectioned(text)
  {
    var lines := SplitLines(text);
    LinesOfText(text);
    var filled := ScanLines(lines);
    result := DedupeAll(filled);
  }

  /** The loop of `parse_sections` over the lines of the text. */
  method ScanLines(lines: seq<string>) returns (result: map<Key, seq<string>>)
    requires OneLineEach(lines)
    ensures result == Run(Kinds(lines)).lists
  {
    result := Fresh();
    var current: Option<Key> := None;
    ghost var kinds := Kinds(lines);
    for i := 0 to |lines|
      invariant Scan(result, current) == Run(kinds[..i])
    {
      ghost var st := Scan(result, current);
      KindsAt(lines, i);
      result, current := ScanLine(result, current, lines[i]);
      ScanNext(kinds, i, st, Scan(result, current));
    }
    assert kinds[..|lines|] == kinds;
  }

  /** One pass of the loop of `parse_sections`: the line, right-stripped,
      is skipped when blank, else a header line switches the current
      section and files its trailing text, else the line goes to the
      current section. */
  method ScanLine(lists: map<Key, seq<string>>, current: Option<Key>, raw: string)
    returns (lists': map<Key, seq<string>>, current': Option<Key>)
    requires Full(lists) && '\n' !in raw
    ensures Scan(lists', current') == Step(Scan(lists, current), Classify(raw))
  {
    lists', current' := lists, current;
    var line := RStrip(raw);
    if Strip(line) == [] {
      ClassifyBlank(raw);
      return;
    }
    var h := MatchHeader(line);
    if h.Some? {
      var (key, trailing) := h.value;
      ClassifyHeaderLine(raw);
      current' := Some(key);
      if trailing != [] {
        var content := NormSpace(StripBullet(trailing));
        if content != [] {
          lists' := Add(lists', key, content);
        }
      }
      return;
    }
    ClassifyBodyLine(raw);
    var bucket := if current.Some? then current.value else Summary;
    var content := NormSpace(StripBullet(line));
    if content != [] {
      lists' := Add(lists', bucket, content);
    }
  }

  /** The closing loop of `parse_sections`: each list, key by key, through
      `_unique_preserve_order`. */
  method DedupeAll(filled: map<Key, seq<string>>) returns (result: map<Key, seq<string>>)
    requires Full(filled)
    ensures result == Deduped(filled)
  {
    result := filled;
    var todo := result.Keys;
    while todo != {}
      invariant DedupedBut(filled, result, todo)
      decreases |todo|
    {
      var k :| k in todo;
      var u := UniquePreserveOrder(result[k]);
      DedupedNext(filled, result, todo, k, u);
      result := result[k := u];
      todo := todo - {k};
    }
    DedupedDone(filled, result);
  }

  /** Every list of `result` is its list in `filled`, deduplicated unless
      its key is still in `todo`. */
  predicate DedupedBut(filled: map<Key, seq<string>>, result: map<Key, seq<string>>, todo: set<Key>)
  {
    && Full(filled) && Full(result)
    && (forall k :: k in todo ==> result[k] == filled[k])
    && (forall k :: k !in todo ==> result[k] == Unique(filled[k]))
  }

  lemma DedupedNext(filled: map<Key, seq<string>>, result: map<Key, seq<string>>, todo: set<Key>, k: Key,
                    u: seq<string>)
    requires DedupedBut(filled, result, todo) && k in todo && u == Unique(result[k])
    ensures DedupedBut(filled, result[k := u], todo - {k})
  {
  }

  lemma DedupedDone(filled: map<Key, seq<string>>, result: map<Key, seq<string>>)
    requires DedupedBut(filled, result, {})
    ensures result == Deduped(filled)
  {
    forall k: Key ensures k in Keys { AllKeys(k); }
  }

  /** Only `oq` is a header: the lazy header pattern captures two letters,
      and no other alias has two. */
  lemma ClassifyHeader(raw: string)
    requires '\n' !in raw
    ensures Classify(raw).Header? ==> Classify(raw).key == OpenQuestions
  {
    var line := RStrip(raw);
    assert forall m :: 0 <= m < |line| ==> line[m] == raw[m];
    MatchHeaderIs(line);
  }

  /** No header but Open Questions in `kinds`. */
  predicate OnlyQuestionHeaders(kinds: seq<Kind>)
  {
    forall i :: 0 <= i < |kinds| && kinds[i].Header? ==> kinds[i].key == OpenQuestions
  }

  lemma {:induction false} RunOnlyTwo(kinds: seq<Kind>)
    requires OnlyQuestionHeaders(kinds)
    ensures var st := Run(kinds);
      (st.current == None || st.current == Some(OpenQuestions))
      && forall k :: k != Summary && k != OpenQuestions ==> st.lists[k] == []
  {
    if kinds != [] {
      RunOnlyTwo(kinds[..|kinds| - 1]);
    }
  }

  /** `parse_sections` always leaves Decisions, Actions, Risks and
      Dependencies empty. */
  lemma SectionedOnlyTwo(text: string)
    ensures forall k :: k != Summary && k != OpenQuestions ==> Sectioned(text)[k] == []
  {
    LinesOfText(text);
    var lines := SplitLines(text);
    forall i | 0 <= i < |lines| ensures Kinds(lines)[i].Header? ==> Kinds(lines)[i].key == OpenQuestions {
      KindsAt(lines, i);
      ClassifyHeader(lines[i]);
    }
    RunOnlyTwo(Kinds(lines));
  }

  /** The content a line carries is single-spaced. */
  predicate CleanKind(kind: Kind)
  {
    (kind.Header? || kind.Body?) ==> SingleSpaced(kind.content)
  }

  lemma ClassifyClean(raw: string)
    requires '\n' !in raw
    ensures CleanKind(Classify(raw))
  {
    var line := RStrip(raw);
    assert forall m :: 0 <= m < |line| ==> line[m] == raw[m];
    if MatchHeader(line).Some? {
      NormSpaceSingle(StripBullet(MatchHeader(line).value.1));
    }
    NormSpaceSingle(StripBullet(line));
  }

  /** Every list entry is single-spaced and not empty. */
  predicate CleanLists(m: map<Key, seq<string>>)
    requires Full(m)
  {
    forall k, i :: 0 <= i < |m[k]| ==> m[k][i] != [] && SingleSpaced(m[k][i])
  }

  lemma {:induction false} RunClean(kinds: seq<Kind>)
    requires forall i :: 0 <= i < |kinds| ==> CleanKind(kinds[i])
    ensures CleanLists(Run(kinds).lists)
  {
    if kinds != [] {
      RunClean(kinds[..|kinds| - 1]);
      assert CleanKind(kinds[|kinds| - 1]);
    }
  }

  /** Each list of `parse_sections` holds distinct, non-empty,
      single-spaced lines. */
  lemma SectionedClean(text: string, k: Key)
    ensures CleanDistinct(Sectioned(text)[k])
    ensures forall i :: 0 <= i < |Sectioned(text)[k]| ==> SingleSpaced(Sectioned(text)[k][i])
  {
    LinesOfText(text);
    var lines := SplitLines(text);
    forall i | 0 <= i < |lines| ensures CleanKind(Kinds(lines)[i]) {
      KindsAt(lines, i);
      ClassifyClean(lines[i]);
    }
    var filled := Run(Kinds(lines)).lists;
    RunClean(Kinds(lines));
    AllKeys(k);
    assert Sectioned(text)[k] == Unique(filled[k]);
    UniqueDistinct(filled[k]);
    UniqueSingleSpaced(filled[k]);
  }

  /** De-duplicating single-spaced lines keeps them single-spaced. */
  lemma UniqueSingleSpaced(items: seq<string>)
    requires forall i :: 0 <= i < |items| ==> SingleSpaced(items[i])
    ensures forall i :: 0 <= i < |Unique(items)| ==> SingleSpaced(Unique(items)[i])
  {
    var r := Unique(items);
    forall i | 0 <= i < |r|
      ensures SingleSpaced(r[i])
    {
      assert r[i] in r;
      UniqueMembers(items, r[i]);
      var j :| 0 <= j < |items| && Strip(items[j]) == r[i];
      StripInOfClean(items[j], Whitespace);
    }
  }

  /** The content of a line read as body text. */
  function Content(raw: string): string
  {
    CleanLine(RStrip(raw))
  }

  /** A blank line has no content. */
  lemma BlankContent(line: string)
    requires Strip(line) == []
    ensures CleanLine(line) == []
  {
    var i := SkipIn(line, 0, Whitespace);
    if i < |line| {
      StripNonBlank(line[i..]);
      assert false;
    }
    assert MarkerEnd(line, i) == None;
    assert CollapseFrom([], 0) == [];
  }

  /** The text a line adds when it is not a header. */
  function BodyText(kind: Kind): string
  {
    if kind.Body? then kind.content else []
  }

  lemma ClassifyBody(raw: string)
    requires '\n' !in raw && MatchHeader(RStrip(raw)) == None
    ensures !Classify(raw).Header? && BodyText(Classify(raw)) == Content(raw)
  {
    if Strip(RStrip(raw)) == [] {
      BlankContent(RStrip(raw));
    }
  }

  lemma {:induction false} RunNoHeaders(kinds: seq<Kind>)
    requires forall i :: 0 <= i < |kinds| ==> !kinds[i].Header?
    ensures Run(kinds).current == None
    ensures Run(kinds).lists[Summary] == Sorting.Filter(Sorting.Map(kinds, BodyText), NonBlank)
  {
    if kinds != [] {
      var init := kinds[..|kinds| - 1];
      var last := kinds[|kinds| - 1];
      RunNoHeaders(init);
      assert kinds == init + [last];
      MapSnoc(init, last, BodyText);
      FilterSnoc(Sorting.Map(init, BodyText), BodyText(last), NonBlank);
    }
  }

  /** Until the first header, every line that is not empty once cleaned
      goes to Summary, in order, and no section is current. */
  lemma BeforeHeaders(lines: seq<string>)
    requires OneLineEach(lines)
    requires forall i :: 0 <= i < |lines| ==> MatchHeader(RStrip(lines[i])) == None
    ensures Run(Kinds(lines)).current == None
    ensures Run(Kinds(lines)).lists[Summary] == Sorting.Filter(Sorting.Map(lines, Content), NonBlank)
  {
    var kinds := Kinds(lines);
    forall i | 0 <= i < |lines|
      ensures !kinds[i].Header? && BodyText(kinds[i]) == Content(lines[i])
    {
      KindsAt(lines, i);
      ClassifyBody(lines[i]);
    }
    RunNoHeaders(kinds);
    assert Sorting.Map(kinds, BodyText) == Sorting.Map(lines, Content);
  }

  // ---------------------------------------------------------------------
  // build_digest

  /** The digest without `generated_at` and `version`. */
  datatype Digest = Digest(summary: seq<string>, decisions: seq<string>, actions: seq<Action>,
                           risks: seq<string>, dependencies: seq<string>, openQuestions: seq<string>)

  function BuildDigest(text: string, kv: string -> Option<KvGroups>): Digest
  {
    var sec := Sectioned(text);
    Digest(sec[Summary], sec[Decisions], ParsedActions(sec[Actions], kv), sec[Risks], sec[Dependencies],
      sec[OpenQuestions])
  }

  /** Whatever the text, the digest has no actions, decisions, risks or
      dependencies. */
  lemma BuildDigestOnlyTwo(text: string, kv: string -> Option<KvGroups>)
    ensures var d := BuildDigest(text, kv);
      d.actions == [] && d.decisions == [] && d.risks == [] && d.dependencies == []
  {
    SectionedOnlyTwo(text);
  }

  // ---------------------------------------------------------------------
  // render_markdown

  const Dash: string := "\U{2014}"

  /** `bullets(items)`: a `- ` line per item, each ending in a newline. */
  function Bullets(items: seq<string>): string
  {
    Join("\n", Sorting.Map(items, x => "- " + x)) + (if items != [] then "\n" else "")
  }

  /** The Summary block: one line when there is at most one item. */
  function SummaryBlock(items: seq<string>): string
  {
    if |items| <= 1 then (if items == [] then Dash else items[0]) + "\n" else Bullets(items)
  }

  /** Any other list: its bullets, or a dash when it is empty. */
  function ListBlock(items: seq<string>): string
  {
    if items != [] then Bullets(items) else Dash + "\n"
  }

  const TableHead: string := "| Title | Owner | Due | Priority |\n|---|---|---|---|\n"

  function Field(v: Option<string>): string
  {
    if v.Some? then v.value else ""
  }

  function Row(a: Action): string
  {
    "| " + a.title + " | " + Field(a.owner) + " | " + Field(a.due) + " | " + Field(a.priority) + " |\n"
  }

  /** The Actions block: a dash, or the table header and one row per
      action. */
  function ActionsBlock(actions: seq<Action>): seq<string>
  {
    if actions == [] then [Dash + "\n"] else [TableHead] + Sorting.Map(actions, Row)
  }

  /** The pieces `render_markdown` appends, in order. */
  function MarkdownParts(d: Digest): seq<string>
  {
    ["## Summary\n", SummaryBlock(d.summary)] + Headed(Titled(d)) + ["## Actions\n"] + ActionsBlock(d.actions)
  }

  /** The four plain lists, with their titles, in the order they appear. */
  function Titled(d: Digest): seq<(string, seq<string>)>
  {
    [("Decisions", d.decisions), ("Risks", d.risks), ("Dependencies", d.dependencies),
     ("Open Questions", d.openQuestions)]
  }

  function Markdown(d: Digest): string
  {
    RStrip(Concat(MarkdownParts(d))) + "\n"
  }

  /** `render_markdown`. */
  method RenderMarkdown(d: Digest) returns (md: string)
    ensures md == Markdown(d)
  {
    var start := ["## Summary\n", SummaryBlock(d.summary)];
    var out := start;
    var lists := Titled(d);
    for i := 0 to |lists|
      invariant out == start + Headed(lists[..i])
    {
      var pair := ["## " + lists[i].0 + "\n", ListBlock(lists[i].1)];
      HeadedSnoc(lists, i);
      AppendAfter(start, Headed(lists[..i]), pair, out);
      out := out + pair;
    }
    assert lists[..|lists|] == lists;
    out := out + ["## Actions\n"];
    ghost var head := out;
    if d.actions == [] {
      out := out + [Dash + "\n"];
    } else {
      out := out + [TableHead];
      assert out == head + ([TableHead] + Sorting.Map(d.actions[..0], Row));
      for i := 0 to |d.actions|
        invariant out == head + ([TableHead] + Sorting.Map(d.actions[..i], Row))
      {
        MapSnoc(d.actions[..i], d.actions[i], Row);
        assert d.actions[..i + 1] == d.actions[..i] + [d.actions[i]];
        AppendAfter(head, [TableHead] + Sorting.Map(d.actions[..i], Row), [Row(d.actions[i])], out);
        out := out + [Row(d.actions[i])];
      }
      assert d.actions[..|d.actions|] == d.actions;
    }
    assert out == head + ActionsBlock(d.actions);
    md := RStrip(Concat(out)) + "\n";
  }

  lemma AppendAfter<T>(start: seq<T>, done: seq<T>, more: seq<T>, out: seq<T>)
    requires out == start + done
    ensures out + more == start + (done + more)
  {
  }

  /** The heading and block of each titled list. */
  function Headed(lists: seq<(string, seq<string>)>): seq<string>
  {
    if lists == [] then []
    else Headed(lists[..|lists| - 1]) + ["## " + lists[|lists| - 1].0 + "\n", ListBlock(lists[|lists| - 1].1)]
  }

  lemma HeadedSnoc(lists: seq<(string, seq<string>)>, i: nat)
    requires i < |lists|
    ensures Headed(lists[..i + 1]) == Headed(lists[..i]) + ["## " + lists[i].0 + "\n", ListBlock(lists[i].1)]
  {
    assert lists[..i + 1][..i] == lists[..i];
  }

  /** The document opens with the Summary heading and ends with exactly one
      newline, with no whitespace before it. */
  lemma MarkdownShape(d: Digest)
    ensures var md := Markdown(d);
      StartsWith(md, "## Summary") && md[|md| - 1] == '\n' && !IsSpace(md[|md| - 2])
  {
    var parts := MarkdownParts(d);
    var c := Concat(parts);
    assert parts == ["## Summary\n"] + parts[1..];
    ConcatAppend(["## Summary\n"], parts[1..]);
    assert c == "## Summary\n" + Concat(parts[1..]);
    assert c[9] == 'y';
    var k := BackIn(c, |c|, Whitespace);
    assert k >= 10;
    assert RStrip(c)[..10] == c[..10] == "## Summary";
  }

  /** A digest from `build_digest` always renders its Actions as a dash:
      the document ends with the Actions heading and `—`. */
  lemma BuiltMarkdownEnds(text: string, kv: string -> Option<KvGroups>)
    ensures EndsWith(Markdown(BuildDigest(text, kv)), "## Actions\n" + Dash + "\n")
  {
    var d := BuildDigest(text, kv);
    BuildDigestOnlyTwo(text, kv);
    var front := ["## Summary\n", SummaryBlock(d.summary)] + Headed(Titled(d));
    assert MarkdownParts(d) == front + ["## Actions\n", Dash + "\n"];
    DashTail(front);
  }

  /** Pieces ending in the Actions heading and a dash render to a document
      ending in them. */
  lemma DashTail(front: seq<string>)
    ensures EndsWith(RStrip(Concat(front + ["## Actions\n", Dash + "\n"])) + "\n", "## Actions\n" + Dash + "\n")
  {
    var pair := ["## Actions\n", Dash + "\n"];
    ConcatAppend(front, pair);
    var tail := "## Actions\n" + Dash;
    ConcatPair("## Actions\n", Dash + "\n");
    var w := Concat(front) + tail;
    Regroup(Concat(front), tail, "\n", Concat(front + pair));
    assert w[|w| - 1] == tail[|tail| - 1] == '\U{2014}';
    RStripInSuffix(w, "\n", Whitespace);
    SuffixEnds(Concat(front), tail, "\n");
  }

  lemma ConcatPair(a: string, b: string)
    ensures Concat([a, b]) == a + b
  {
    assert [a, b][1..] == [b];
    assert [b][1..] == [];
    assert Concat([b]) == b + Concat([]);
    assert b + [] == b;
  }

  lemma SuffixEnds<T>(a: seq<T>, b: seq<T>, c: seq<T>)
    ensures |b + c| <= |(a + b) + c| && ((a + b) + c)[|(a + b) + c| - |b + c|..] == b + c
  {
  }

  /** With at most one Summary item and no newline in it, the Summary
      block is a single line. */
  lemma SummaryOneLine(items: seq<string>)
    requires |items| <= 1 && forall i :: 0 <= i < |items| ==> '\n' !in items[i]
    ensures var b := SummaryBlock(items);
      b[|b| - 1] == '\n' && '\n' !in b[..|b| - 1]
  {
    var b := SummaryBlock(items);
    var first := if items == [] then Dash else items[0];
    assert b[..|b| - 1] == first;
  }

  /** Lines that `parse_sections` produced hold no newline, so a built
      digest with at most one Summary item shows it on one line. */
  lemma BuiltSummaryOneLine(text: string, kv: string -> Option<KvGroups>)
    requires |BuildDigest(text, kv).summary| <= 1
    ensures var b := SummaryBlock(BuildDigest(text, kv).summary);
      b[|b| - 1] == '\n' && '\n' !in b[..|b| - 1]
  {
    var items := BuildDigest(text, kv).summary;
    SectionedClean(text, Summary);
    forall i | 0 <= i < |items|
      ensures '\n' !in items[i]
    {
      assert SingleSpaced(items[i]);
      assert IsSpace('\n');
    }
    SummaryOneLine(items);
  }
}
