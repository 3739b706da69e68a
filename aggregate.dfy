/** `scripts/digest_aggregate.py`: the daily logs of a date range folded
    into one Markdown digest. The logs directory is a map from file name to
    contents; the dates arrive already parsed. */
module DigestAggregate {
  import opened Wrappers
  import opened Text
  import opened Dates
  import opened Sections
  import opened LogText
  import opened ActionItems
  import opened Sorting
  import opened DigestRender

  /** The command line: `--logs-dir`, `--title`, `--flat-by-name`,
      `--group-actions`. */
  datatype Options = Options(logsDir: string, title: string, flatByName: bool, groupActions: bool)

  /** The log file of a day, `notes-YYYY-MM-DD.md`. */
  function LogName(d: Date): string
    requires Valid(d)
  {
    "notes-" + Iso(d) + ".md"
  }

  /** Different days read different files. */
  lemma LogNameInjective(a: Date, b: Date)
    requires Valid(a) && Valid(b) && LogName(a) == LogName(b)
    ensures a == b
  {
    assert Iso(a) == LogName(a)[6..16];
    assert Iso(b) == LogName(b)[6..16];
    ParseIsoOfIso(a);
    ParseIsoOfIso(b);
  }

  /** The contents of day `d`'s log, when the file exists. */
  function Here(logs: map<string, string>, d: Date): (r: seq<string>)
    requires Valid(d)
    ensures |r| <= 1 && (r != [] <==> LogName(d) in logs)
  {
    if LogName(d) in logs then [logs[LogName(d)]] else []
  }

  /** `daterange(d, end)` read in order, skipping missing files: the logs
      the loop folds in. Stepping past `date.max` raises, so a range that
      reaches it stops there. */
  function Found(logs: map<string, string>, d: Date, end: Date): seq<string>
    requires Valid(d)
    decreases DayKey(end) - DayKey(d)
  {
    if !NotAfter(d, end) then []
    else Here(logs, d) + (if d == MaxDate then [] else Found(logs, NextDay(d), end))
  }

  /** One day of the loop: what was read before it, then its log, then
      the rest of the range. */
  lemma FoundAdvance(logs: map<string, string>, start: Date, d: Date, end: Date, texts: seq<string>)
    requires Valid(start) && Valid(d) && NotAfter(d, end)
    requires texts + Found(logs, d, end) == Found(logs, start, end)
    ensures d == MaxDate ==> texts + Here(logs, d) == Found(logs, start, end)
    ensures d != MaxDate ==> (texts + Here(logs, d)) + Found(logs, NextDay(d), end) == Found(logs, start, end)
  {
    if d != MaxDate {
      Regroup(texts, Here(logs, d), Found(logs, NextDay(d), end), Found(logs, start, end));
    } else {
      assert Found(logs, d, end) == Here(logs, d) + [];
    }
  }

  /** A range none of whose days has a log reads nothing. */
  lemma {:induction false} FoundNone(logs: map<string, string>, d: Date, end: Date)
    requires Valid(d)
    requires forall x :: Valid(x) && NotAfter(d, x) && NotAfter(x, end) ==> LogName(x) !in logs
    ensures Found(logs, d, end) == []
    decreases DayKey(end) - DayKey(d)
  {
    if NotAfter(d, end) && d != MaxDate {
      FoundNone(logs, NextDay(d), end);
    }
  }

  /** A range reads at most one log per day, and every day's log when all
      are present. */
  lemma {:induction false} FoundCount(logs: map<string, string>, d: Date, end: Date)
    requires Valid(d) && Valid(end)
    ensures NotAfter(d, end) ==> |Found(logs, d, end)| <= Ordinal(end) - Ordinal(d) + 1
    ensures NotAfter(d, end) && (forall x :: Valid(x) && NotAfter(d, x) && NotAfter(x, end) ==> LogName(x) in logs)
      ==> |Found(logs, d, end)| == Ordinal(end) - Ordinal(d) + 1
    decreases DayKey(end) - DayKey(d)
  {
    if NotAfter(d, end) {
      if d == MaxDate {
        NotAfterMax(end);
      } else {
        var e := NextDay(d);
        FoundCount(logs, e, end);
        NextDayOrdinal(d);
        NotAfterOrdinal(e, end);
        NotAfterOrdinal(d, end);
        if !NotAfter(e, end) {
          assert Ordinal(d) == Ordinal(end);
        }
      }
    }
  }

  /** What one day adds to a narrative section: the normalised block, when
      the section is there and normalises to something. */
  function DayEntry(secs: map<SectionName, string>, k: SectionName): (r: seq<string>)
    ensures |r| <= 1
    ensures forall e :: e in r ==> e != [] && Strip(e) == e
  {
    if k in secs && secs[k] != [] && NormalizedBlock(secs[k]) != [] then
      NormalizedBlockStripped(secs[k]);
      [NormalizedBlock(secs[k])]
    else []
  }

  /** `acc[k]` after the given logs: the entries of narrative section `k`,
      day by day. */
  function Collected(texts: seq<string>, k: SectionName): (r: seq<string>)
    ensures forall i :: 0 <= i < |r| ==> r[i] != [] && Strip(r[i]) == r[i]
    ensures |r| <= |texts|
  {
    if texts == [] || k !in Narrative then []
    else Collected(texts[..|texts| - 1], k) + DayEntry(SlicedSections(texts[|texts| - 1]), k)
  }

  /** `secs.get("Actions", "")`. */
  function ActionsBlock(secs: map<SectionName, string>): string
  {
    if Actions in secs then secs[Actions] else []
  }

  /** The action items of one log. */
  function DayItems(text: string): (r: seq<Item>)
    ensures WellRanked(r)
  {
    MakeItems(ActionLines(ActionsBlock(SlicedSections(text))))
  }

  /** `action_items` after the given logs. */
  function AllItems(texts: seq<string>): (r: seq<Item>)
    ensures WellRanked(r)
  {
    if texts == [] then [] else AllItems(texts[..|texts| - 1]) + DayItems(texts[|texts| - 1])
  }

  /** `args.title`, else `Team Digest (start - end)`. */
  function DigestTitle(o: Options, start: Date, end: Date): string
    requires Valid(start) && Valid(end)
  {
    if o.title != [] then o.title else "Team Digest (" + Iso(start) + " - " + Iso(end) + ")"
  }

  /** The italic line under the title. */
  function RangeLine(o: Options, start: Date, end: Date, days: nat, actions: nat): string
    requires Valid(start) && Valid(end)
  {
    "_Range: " + Iso(start) + " \U{2192} " + Iso(end) + " | Source: " + o.logsDir
      + " | Days matched: " + Decimal(days) + " | Actions: " + Decimal(actions) + "_"
  }

  /** An action with its one standardised tag. */
  function TaggedLine(it: Item): string
  {
    "- [" + Label(it.level) + "] " + StripPriorityTag(it.text)
  }

  /** An action under its bucket heading, without a tag. */
  function PlainLine(it: Item): string
  {
    "- " + StripPriorityTag(it.text)
  }

  /** `--flat-by-name` sorts by name first; the other two views by
      priority first. */
  function SortKey(o: Options): Item -> Key
  {
    if o.flatByName then NameKey else PriorityKey
  }

  /** The Actions part: nothing without items; else the heading and the
      sorted items, flat with tags or in priority buckets. */
  function ActionsPart(o: Options, items: seq<Item>): seq<string>
  {
    if items == [] then []
    else if !o.flatByName && o.groupActions then
      ["## Actions"] + GroupedLines(StableSort(items, PriorityKey), PlainLine)
    else ["## Actions"] + Lines(StableSort(items, SortKey(o)), TaggedLine) + [[]]
  }

  /** The title, a blank line, the range line and a blank line. */
  function Header(o: Options, start: Date, end: Date, days: nat, actions: nat): (r: seq<string>)
    requires Valid(start) && Valid(end)
  {
    ["# " + DigestTitle(o, start, end), "", RangeLine(o, start, end, days, actions), ""]
  }

  /** The six lists of `acc`, as a map. */
  function AccMap(summary: seq<string>, decisions: seq<string>, actions: seq<string>, risks: seq<string>,
                  dependencies: seq<string>, notes: seq<string>): (acc: map<SectionName, seq<string>>)
    ensures forall k: SectionName :: k in acc
    ensures acc[Summary] == summary && acc[Decisions] == decisions && acc[Actions] == actions
    ensures acc[Risks] == risks && acc[Dependencies] == dependencies && acc[Notes] == notes
  {
    var acc := map[Summary := summary, Decisions := decisions, Actions := actions, Risks := risks,
                   Dependencies := dependencies, Notes := notes];
    assert forall k: SectionName :: k in acc by {
      forall k: SectionName
        ensures k in acc
      {
        if k.Summary? {} else if k.Decisions? {} else if k.Actions? {} else if k.Risks? {} else if k.Dependencies? {} else {}
      }
    }
    acc
  }

  /** `acc` after the given logs. */
  function Accumulated(texts: seq<string>): (acc: map<SectionName, seq<string>>)
  {
    AccMap(Collected(texts, Summary), Collected(texts, Decisions), Collected(texts, Actions),
           Collected(texts, Risks), Collected(texts, Dependencies), Collected(texts, Notes))
  }

  /** Two maps with the same entry under every name are equal. */
  lemma SameEntries(a: map<SectionName, seq<string>>, b: map<SectionName, seq<string>>)
    requires forall k: SectionName :: k in a && k in b && a[k] == b[k]
    ensures a == b
  {
    assert a.Keys == b.Keys;
  }

  /** A map with the six lists under their names is `AccMap` of them. */
  lemma AccMapIs(acc: map<SectionName, seq<string>>, summary: seq<string>, decisions: seq<string>,
                 actions: seq<string>, risks: seq<string>, dependencies: seq<string>, notes: seq<string>)
    requires forall k: SectionName :: k in acc
    requires acc[Summary] == summary && acc[Decisions] == decisions && acc[Actions] == actions
    requires acc[Risks] == risks && acc[Dependencies] == dependencies && acc[Notes] == notes
    ensures acc == AccMap(summary, decisions, actions, risks, dependencies, notes)
  {
    var m := AccMap(summary, decisions, actions, risks, dependencies, notes);
    forall k: SectionName
      ensures k in m && m[k] == acc[k]
    {
      if k.Summary? {} else if k.Decisions? {} else if k.Actions? {} else if k.Risks? {} else if k.Dependencies? {} else {}
    }
    SameEntries(acc, m);
  }

  /** A map holding `Collected` under every name is `Accumulated`. */
  lemma AccumulatedIs(acc: map<SectionName, seq<string>>, texts: seq<string>)
    requires forall k: SectionName :: k in acc && acc[k] == Collected(texts, k)
    ensures acc == Accumulated(texts)
  {
    AccMapIs(acc, Collected(texts, Summary), Collected(texts, Decisions), Collected(texts, Actions),
             Collected(texts, Risks), Collected(texts, Dependencies), Collected(texts, Notes));
  }

  /** `Accumulated` holds `Collected` under every name. */
  lemma AccumulatedAt(texts: seq<string>, k: SectionName)
    ensures k in Accumulated(texts) && Accumulated(texts)[k] == Collected(texts, k)
  {
    if k.Summary? {} else if k.Decisions? {} else if k.Actions? {} else if k.Risks? {} else if k.Dependencies? {} else {}
  }

  /** Adding one log's entries to `Accumulated` of the earlier logs gives
      `Accumulated` of all of them. */
  lemma AccumulatedStep(acc: map<SectionName, seq<string>>, acc': map<SectionName, seq<string>>,
                        texts: seq<string>, text: string)
    requires acc == Accumulated(texts)
    requires forall k: SectionName ::
      k in acc' && acc'[k] == acc[k] + (if k in Narrative then DayEntry(SlicedSections(text), k) else [])
    ensures acc' == Accumulated(texts + [text])
  {
    forall k: SectionName
      ensures k in acc' && acc'[k] == Collected(texts + [text], k)
    {
      AccumulatedAt(texts, k);
      CollectedStep(texts, text, k);
    }
    AccumulatedIs(acc', texts + [text]);
  }

  /** One more log appends its entry to each narrative section. */
  lemma CollectedStep(texts: seq<string>, text: string, k: SectionName)
    ensures Collected(texts + [text], k)
      == Collected(texts, k) + (if k in Narrative then DayEntry(SlicedSections(text), k) else [])
  {
    assert (texts + [text])[..|texts|] == texts;
  }

  /** One more log appends its action items. */
  lemma AllItemsStep(texts: seq<string>, text: string)
    ensures AllItems(texts + [text]) == AllItems(texts) + DayItems(text)
  {
    var all := texts + [text];
    assert all[..|all| - 1] == texts && all[|all| - 1] == text;
  }

  /** The sections, in order: Summary, Decisions, Actions, Risks,
      Dependencies, Notes. */
  function SectionLines(o: Options, acc: map<SectionName, seq<string>>, items: seq<Item>): seq<string>
    requires forall k: SectionName :: k in acc
  {
    BlockLines("Summary", acc[Summary])
      + BlockLines("Decisions", acc[Decisions])
      + ActionsPart(o, items)
      + BlockLines("Risks", acc[Risks])
      + BlockLines("Dependencies", acc[Dependencies])
      + BlockLines("Notes", acc[Notes])
  }

  /** The lines of the digest of the given logs. */
  function DigestLines(o: Options, start: Date, end: Date, texts: seq<string>): seq<string>
    requires Valid(start) && Valid(end)
  {
    Header(o, start, end, |texts|, |AllItems(texts)|) + SectionLines(o, Accumulated(texts), AllItems(texts))
  }

  /** The narrative sections of one log, added to `acc`. */
  method AddNarrative(acc: map<SectionName, seq<string>>, secs: map<SectionName, string>)
    returns (acc': map<SectionName, seq<string>>)
    requires forall k: SectionName :: k in acc
    ensures forall k: SectionName ::
      k in acc' && acc'[k] == acc[k] + (if k in Narrative then DayEntry(secs, k) else [])
  {
    acc' := acc;
    var i := 0;
    while i < |Narrative|
      invariant 0 <= i <= |Narrative|
      invariant forall k: SectionName ::
        k in acc' && acc'[k] == acc[k] + (if k in Narrative[..i] then DayEntry(secs, k) else [])
    {
      var k := Narrative[i];
      assert k !in Narrative[..i];
      if k in secs && secs[k] != [] {
        var txt := NormalizeBlockText(secs[k]);
        if txt != [] {
          acc' := acc'[k := acc'[k] + [txt]];
        }
      }
      assert Narrative[..i + 1] == Narrative[..i] + [k];
      i := i + 1;
    }
    assert Narrative[..|Narrative|] == Narrative;
  }

  /** One present log: its narrative sections and its action items. */
  method AddDay(acc: map<SectionName, seq<string>>, items: seq<Item>, text: string)
    returns (acc': map<SectionName, seq<string>>, items': seq<Item>)
    requires forall k: SectionName :: k in acc
    ensures forall k: SectionName ::
      k in acc' && acc'[k] == acc[k] + (if k in Narrative then DayEntry(SlicedSections(text), k) else [])
    ensures items' == items + DayItems(text)
  {
    var secs := SliceSections(text);
    acc' := AddNarrative(acc, secs);
    var day := DayActions(ActionsBlock(secs));
    items' := items + day;
  }

  /** The `daterange(start, end)` loop's file handling: the logs read, in
      date order, with their file names, and whether stepping past
      `date.max` raised OverflowError once that day had been read. */
  method ReadRange(logs: map<string, string>, start: Date, end: Date)
    returns (texts: seq<string>, matched: seq<string>, overflow: bool)
    requires Valid(start) && Valid(end)
    ensures overflow <==> NotAfter(start, end) && end == MaxDate
    ensures texts == Found(logs, start, end)
    ensures |matched| == |texts|
  {
    texts, matched, overflow := [], [], false;
    var d := start;
    while NotAfter(d, end)
      invariant Valid(d) && NotAfter(start, d)
      invariant texts + Found(logs, d, end) == Found(logs, start, end)
      invariant |matched| == |texts|
      decreases DayKey(end) - DayKey(d)
    {
      ghost var before := texts;
      texts, matched := VisitDay(logs, d, texts, matched);
      FoundAdvance(logs, start, d, end, before);
      if d == MaxDate {
        NotAfterMax(end);
        overflow := true;
        return;
      }
      d := NextDay(d);
    }
    NotAfterMax(d);
  }

  /** The body of the day loop up to the parse: a day whose file exists is
      matched and its text read. */
  method VisitDay(logs: map<string, string>, d: Date, texts: seq<string>, matched: seq<string>)
    returns (texts': seq<string>, matched': seq<string>)
    requires Valid(d)
    ensures texts' == texts + Here(logs, d)
    ensures matched' == matched + (if LogName(d) in logs then [LogName(d)] else [])
  {
    var name := LogName(d);
    texts', matched' := texts, matched;
    if name in logs {
      matched' := matched + [name];
      texts' := texts + [logs[name]];
    }
  }

  /** The body of the day loop for each log read, in order: `acc` and
      `action_items` afterwards. */
  method FoldLogs(texts: seq<string>) returns (acc: map<SectionName, seq<string>>, items: seq<Item>)
    ensures acc == Accumulated(texts) && items == AllItems(texts)
  {
    acc := map[Summary := [], Decisions := [], Actions := [], Risks := [], Dependencies := [], Notes := []];
    items := [];
    forall k: SectionName
      ensures k in acc && acc[k] == Collected([], k)
    {
      if k.Summary? {} else if k.Decisions? {} else if k.Actions? {} else if k.Risks? {} else if k.Dependencies? {} else {}
    }
    AccumulatedIs(acc, []);
    var i := 0;
    while i < |texts|
      invariant 0 <= i <= |texts|
      invariant acc == Accumulated(texts[..i]) && items == AllItems(texts[..i])
    {
      ghost var before := acc;
      acc, items := AddDay(acc, items, texts[i]);
      AccumulatedStep(before, acc, texts[..i], texts[i]);
      AllItemsStep(texts[..i], texts[i]);
      TakeSnoc(texts, i);
      i := i + 1;
    }
    assert texts[..|texts|] == texts;
  }

  /** The Actions part, in the view the options choose. */
  method EmitActions(out: seq<string>, o: Options, items: seq<Item>) returns (out': seq<string>)
    ensures out' == out + ActionsPart(o, items)
  {
    out' := out;
    if items != [] {
      var head := ["## Actions"];
      if !o.flatByName && o.groupActions {
        var s := StableSort(items, PriorityKey);
        out' := EmitBuckets(out + head, s, PlainLine);
        Ungroup(out, head, GroupedLines(s, PlainLine), out');
        assert ActionsPart(o, items) == head + GroupedLines(s, PlainLine);
      } else {
        var s := StableSort(items, SortKey(o));
        out' := EmitFlat(out + head, s, TaggedLine);
        Regroup3(out, head, Lines(s, TaggedLine), [[]], out');
        assert ActionsPart(o, items) == head + Lines(s, TaggedLine) + [[]];
      }
    }
  }

  /** The sections, in order, after the header. */
  method EmitSections(out: seq<string>, o: Options, acc: map<SectionName, seq<string>>, items: seq<Item>)
    returns (out': seq<string>)
    requires forall k: SectionName :: k in acc
    ensures out' == out + SectionLines(o, acc, items)
  {
    ghost var b1, b2 := BlockLines("Summary", acc[Summary]), BlockLines("Decisions", acc[Decisions]);
    ghost var a := ActionsPart(o, items);
    ghost var b3, b4 := BlockLines("Risks", acc[Risks]), BlockLines("Dependencies", acc[Dependencies]);
    ghost var b5 := BlockLines("Notes", acc[Notes]);
    var o1 := EmitBlock(out, "Summary", acc[Summary]);
    var o2 := EmitBlock(o1, "Decisions", acc[Decisions]);
    var o3 := EmitActions(o2, o, items);
    var o4 := EmitBlock(o3, "Risks", acc[Risks]);
    var o5 := EmitBlock(o4, "Dependencies", acc[Dependencies]);
    out' := EmitBlock(o5, "Notes", acc[Notes]);
    Chain(out, b1, b2, a, b3, b4, b5, o1, o2, o3, o4, o5, out');
    assert SectionLines(o, acc, items) == b1 + b2 + a + b3 + b4 + b5;
  }

  /** Six appends in a row append the six parts' concatenation. */
  lemma Chain<T>(out: seq<T>, b1: seq<T>, b2: seq<T>, a: seq<T>, b3: seq<T>, b4: seq<T>, b5: seq<T>,
                 o1: seq<T>, o2: seq<T>, o3: seq<T>, o4: seq<T>, o5: seq<T>, o6: seq<T>)
    requires o1 == out + b1 && o2 == o1 + b2 && o3 == o2 + a && o4 == o3 + b3 && o5 == o4 + b4 && o6 == o5 + b5
    ensures o6 == out + (b1 + b2 + a + b3 + b4 + b5)
  {
  }

  /** The output of the script: the header, the sections, joined and
      trimmed. */
  method Render(o: Options, start: Date, end: Date, acc: map<SectionName, seq<string>>, items: seq<Item>, days: nat)
    returns (text: string)
    requires Valid(start) && Valid(end) && forall k: SectionName :: k in acc
    ensures text == Finish(Header(o, start, end, days, |items|) + SectionLines(o, acc, items))
  {
    var out := ["# " + DigestTitle(o, start, end), ""];
    out := out + [RangeLine(o, start, end, days, |items|)];
    out := out + [""];
    assert out == Header(o, start, end, days, |items|);
    out := EmitSections(out, o, acc, items);
    text := Finish(out);
  }

  /** `main()` of the aggregate script, after argument parsing: the digest
      of the range, or OverflowError when the range ends on the last
      representable day. */
  method Aggregate(o: Options, logs: map<string, string>, start: Date, end: Date) returns (r: Result<string>)
    requires Valid(start) && Valid(end)
    ensures r.Err? <==> NotAfter(start, end) && end == MaxDate
    ensures r.Ok? ==> r.value == Finish(DigestLines(o, start, end, Found(logs, start, end)))
  {
    var texts, matched, overflow := ReadRange(logs, start, end);
    if overflow {
      return Err("OverflowError");
    }
    var acc, items := FoldLogs(texts);
    var text := Render(o, start, end, acc, items, |matched|);
    r := Ok(text);
  }

  // ---------------------------------------------------------------------
  // What the digest promises

  /** The digest's first line is `# title`; with `FinishFirstLine`, the
      file starts with it. */
  lemma DigestLinesFirst(o: Options, start: Date, end: Date, texts: seq<string>)
    requires Valid(start) && Valid(end)
    ensures var out := DigestLines(o, start, end, texts); out != [] && out[0] == "# " + DigestTitle(o, start, end)
  {
    var head := Header(o, start, end, |texts|, |AllItems(texts)|);
    assert DigestLines(o, start, end, texts) == head + SectionLines(o, Accumulated(texts), AllItems(texts));
  }

  /** A file whose first line is a title line starts with that line. */
  lemma FinishFirstLine(out: seq<string>, title: string)
    requires out != [] && out[0] == "# " + title
    ensures StartsWith(Finish(out), RStrip("# " + title))
  {
    var s := "# " + title;
    assert s[0] == '#';
    StripNonBlank(s);
    FinishShape(out);
  }

  /** The Actions list holds every action item exactly once, sorted by the
      chosen key; equal keys keep the order the logs gave them. */
  lemma ActionsSortedPermutation(o: Options, items: seq<Item>, k: Key)
    ensures var s := StableSort(items, SortKey(o));
      && SortedBy(s, SortKey(o)) && multiset(s) == multiset(items)
      && Having(s, SortKey(o), k) == Having(items, SortKey(o), k)
  {
    StableSortSorted(items, SortKey(o));
    StableSortPermutation(items, SortKey(o));
    StableSortStable(items, SortKey(o), k);
  }

  /** In every view the Actions part lists each item on its own line: the
      flat views as one tagged line per sorted item, the grouped view as the
      same sorted items' lines, split under bucket headings. */
  lemma ActionsPartLines(o: Options, texts: seq<string>)
    ensures var items := AllItems(texts);
      && (items == [] <==> ActionsPart(o, items) == [])
      && (items != [] && (o.flatByName || !o.groupActions) ==>
            ActionsPart(o, items) == ["## Actions"] + Lines(StableSort(items, SortKey(o)), TaggedLine) + [[]])
      && (var s := StableSort(items, PriorityKey);
          Lines(Bucket(s, High), PlainLine) + Lines(Bucket(s, Medium), PlainLine)
            + Lines(Bucket(s, Low), PlainLine) + Lines(Bucket(s, Other), PlainLine) == Lines(s, PlainLine))
  {
    GroupedInSortedOrder(AllItems(texts), PlainLine);
  }

  /** A range whose logs are all missing gives the header alone, with no
      day matched and no action. */
  lemma MissingDaysSkipped(o: Options, logs: map<string, string>, start: Date, end: Date)
    requires Valid(start) && Valid(end)
    requires forall x :: Valid(x) && NotAfter(start, x) && NotAfter(x, end) ==> LogName(x) !in logs
    ensures DigestLines(o, start, end, Found(logs, start, end)) == Header(o, start, end, 0, 0)
  {
    FoundNone(logs, start, end);
    EmptyDigest(o, start, end);
  }

  lemma EmptyDigest(o: Options, start: Date, end: Date)
    requires Valid(start) && Valid(end)
    ensures DigestLines(o, start, end, []) == Header(o, start, end, 0, 0)
  {
    assert SectionLines(o, Accumulated([]), []) == [];
  }
}
