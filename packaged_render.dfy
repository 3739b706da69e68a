/**
 * The Markdown renderers of src/team_digest/team_email_digest.py:
 * `render_counts_line`, `render_md_daily` and `render_md_range`.
 *
 * Both renderers build a list of lines and finish it with
 * `"\n".join(lines).rstrip() + "\n"`. Every section is a block: a heading,
 * the items as `- item` lines or one `_No ..._` placeholder line, and a
 * blank line. The Actions section can instead be split into the three
 * priority buckets, whose lines have their `[tag]` lower-cased.
 */
module PackagedRender {
  import opened Text
  import opened Sections
  import opened Sorting
  import Dates
  import opened PackagedParse
  import opened PackagedKpis
  import DigestRender
  import DigestAggregate

  // ---------------------------------------------------------------------
  // render_counts_line

  /** `_Range: start → end | Source: src | Days matched: n | Actions: t_`
      and a newline. */
  function CountsLine(start: Dates.Date, end: Dates.Date, src: string, docs: seq<DayDoc>): string
    requires Dates.Valid(start) && Dates.Valid(end)
  {
    "_Range: " + Dates.Iso(start) + " \U{2192} " + Dates.Iso(end) + " | Source: " + src
      + " | Days matched: " + Dates.Decimal(|docs|) + " | Actions: " + Dates.Decimal(TotalActions(docs)) + "_\n"
  }

  /** The Actions figure of the counts line is the length of the Actions
      list the range digest prints. */
  lemma CountsLineActions(start: Dates.Date, end: Dates.Date, src: string, docs: seq<DayDoc>)
    requires Dates.Valid(start) && Dates.Valid(end)
    ensures EndsWith(CountsLine(start, end, src, docs),
                     " | Actions: " + Dates.Decimal(|Aggregated(docs)[Actions]|) + "_\n")
  {
    AggActionsCount(docs);
    var head := "_Range: " + Dates.Iso(start) + " \U{2192} " + Dates.Iso(end) + " | Source: " + src
      + " | Days matched: " + Dates.Decimal(|docs|);
    var tail := " | Actions: " + Dates.Decimal(TotalActions(docs)) + "_\n";
    assert CountsLine(start, end, src, docs) == head + tail;
    assert (head + tail)[|head|..] == tail;
  }

  // ---------------------------------------------------------------------
  // Blocks: a heading, `- item` lines or a placeholder, a blank line

  /** `[f"- {x}" for x in xs]`. */
  function Dashed(xs: seq<string>): (r: seq<string>)
    ensures |r| == |xs| && forall k :: 0 <= k < |xs| ==> r[k] == "- " + xs[k]
  {
    if xs == [] then [] else Dashed(xs[..|xs| - 1]) + ["- " + xs[|xs| - 1]]
  }

  /** One section or bucket as the renderers emit it. */
  function Block(head: string, placeholder: string, items: seq<string>): seq<string>
  {
    [head] + (if items == [] then [placeholder] else Dashed(items)) + [""]
  }

  /** A line read back as an item: the text after a leading `- `. */
  function Undash(lines: seq<string>): seq<string>
  {
    if lines == [] then []
    else
      var x := lines[|lines| - 1];
      Undash(lines[..|lines| - 1]) + (if |x| >= 2 && x[..2] == "- " then [x[2..]] else [])
  }

  /** The items a reader recovers from a block: the dashed lines between its
      heading and its closing blank line. */
  function BlockItems(block: seq<string>): seq<string>
  {
    if |block| < 2 then [] else Undash(block[1..|block| - 1])
  }

  /** Reading back the dashed lines gives the items. */
  lemma {:induction false} UndashDashed(xs: seq<string>)
    ensures Undash(Dashed(xs)) == xs
  {
    if xs != [] {
      var d := Dashed(xs);
      var x := xs[|xs| - 1];
      assert d[..|d| - 1] == Dashed(xs[..|xs| - 1]);
      assert ("- " + x)[..2] == "- " && ("- " + x)[2..] == x;
      UndashDashed(xs[..|xs| - 1]);
    }
  }

  /** A block shows the placeholder exactly when it has no items, and
      otherwise its items, each once and in order. */
  lemma BlockRoundTrip(head: string, placeholder: string, items: seq<string>)
    requires placeholder != [] && placeholder[0] == '_'
    ensures BlockItems(Block(head, placeholder, items)) == items
    ensures Block(head, placeholder, items)[1] == placeholder <==> items == []
  {
    var b := Block(head, placeholder, items);
    if items == [] {
      assert b[1..|b| - 1] == [placeholder];
      assert [placeholder][..0] == [];
      if |placeholder| >= 2 {
        assert placeholder[..2][0] == '_';
      }
      assert Undash([placeholder]) == [];
    } else {
      assert b[1..|b| - 1] == Dashed(items);
      UndashDashed(items);
      assert b[1] == "- " + items[0];
      assert ("- " + items[0])[0] == '-';
    }
  }

  /** `lines.append(f"- {x}")` for each item. */
  method EmitDashed(out: seq<string>, items: seq<string>) returns (out': seq<string>)
    ensures out' == out + Dashed(items)
  {
    out' := out;
    var i := 0;
    while i < |items|
      invariant 0 <= i <= |items|
      invariant out' == out + Dashed(items[..i])
    {
      assert items[..i + 1][..i] == items[..i];
      out' := out' + ["- " + items[i]];
      i := i + 1;
    }
    assert items[..i] == items;
  }

  /** `lines.append(...)` for each line of a block. */
  method EmitBlock(out: seq<string>, head: string, placeholder: string, items: seq<string>)
    returns (out': seq<string>)
    ensures out' == out + Block(head, placeholder, items)
  {
    out' := out + [head];
    if items != [] {
      out' := EmitDashed(out', items);
    } else {
      out' := out' + [placeholder];
    }
    out' := out' + [""];
  }

  /** `f"_No {sec.lower()}._"`. */
  function Placeholder(c: SectionName): string
  {
    "_No " + Lower(Title(c)) + "._"
  }

  /** The block of a narrative section. */
  function SectionLines(c: SectionName, bullets: seq<string>): seq<string>
  {
    Block("## " + Title(c), Placeholder(c), bullets)
  }

  /** A section block reads back to its bullets, and shows `_No ..._` exactly
      when there are none. */
  lemma SectionRoundTrip(c: SectionName, bullets: seq<string>)
    ensures BlockItems(SectionLines(c, bullets)) == bullets
    ensures SectionLines(c, bullets)[1] == Placeholder(c) <==> bullets == []
  {
    assert Placeholder(c)[0] == '_';
    BlockRoundTrip("## " + Title(c), Placeholder(c), bullets);
  }

  // ---------------------------------------------------------------------
  // PRIO_RX.sub(lambda m: f"[{m.group(1).lower()}]", a)

  /** The substitution from position `i` on: each tag written in lower case,
      everything else copied. */
  function LowerTagsFrom(s: string, i: nat): string
    requires i <= |s|
    decreases |s| - i
  {
    if i == |s| then []
    else
      match TagAt(s, i)
      case Some(p) => "[" + Word(p) + "]" + LowerTagsFrom(s, i + |Word(p)| + 2)
      case None => [s[i]] + LowerTagsFrom(s, i + 1)
  }

  /** The substitution over a whole action. */
  function LowerTags(s: string): string
  {
    LowerTagsFrom(s, 0)
  }

  /** `r` equals `s[i..i + |r|]` up to letter case. */
  predicate FoldsAt(r: string, s: string, i: nat)
  {
    i + |r| <= |s| && forall k :: 0 <= k < |r| ==> LowerChar(r[k]) == LowerChar(s[i + k])
  }

  /** Two pieces that fold like consecutive stretches of `s` fold together. */
  lemma FoldsConcat(a: string, b: string, s: string, i: nat, j: nat)
    requires j == i + |a| && FoldsAt(a, s, i) && FoldsAt(b, s, j)
    ensures FoldsAt(a + b, s, i)
  {
    forall k | 0 <= k < |a + b| ensures LowerChar((a + b)[k]) == LowerChar(s[i + k]) {
      if k >= |a| {
        assert (a + b)[k] == b[k - |a|];
      }
    }
  }

  /** A tag written in lower case folds like the tag it replaces. */
  lemma TagFolds(s: string, i: nat, p: Priority)
    requires TagFor(s, i, p)
    ensures FoldsAt("[" + Word(p) + "]", s, i)
  {
    var n := |Word(p)|;
    var t := "[" + Word(p) + "]";
    WordLower(p);
    forall k | 0 <= k < n + 2 ensures LowerChar(t[k]) == LowerChar(s[i + k]) {
      if 1 <= k <= n {
        assert t[k] == Word(p)[k - 1];
        assert Lower(s[i + 1..i + 1 + n])[k - 1] == LowerChar(s[i + k]);
        assert Lower(Word(p))[k - 1] == LowerChar(Word(p)[k - 1]);
      }
    }
  }

  /** The substitution changes letter case and nothing else. */
  lemma {:induction false} LowerTagsFromFolds(s: string, i: nat)
    requires i <= |s|
    ensures |LowerTagsFrom(s, i)| == |s| - i && FoldsAt(LowerTagsFrom(s, i), s, i)
    decreases |s| - i, 1
  {
    if i < |s| {
      if TagAt(s, i).Some? {
        TagCaseFolds(s, i);
      } else {
        CopyCaseFolds(s, i);
      }
    }
  }

  /** `LowerTagsFromFolds` where a tag starts at `i`. */
  lemma {:induction false} TagCaseFolds(s: string, i: nat)
    requires i < |s| && TagAt(s, i).Some?
    ensures |LowerTagsFrom(s, i)| == |s| - i && FoldsAt(LowerTagsFrom(s, i), s, i)
    decreases |s| - i, 0
  {
    var p := TagAt(s, i).value;
    var j := i + |Word(p)| + 2;
    LowerTagsFromFolds(s, j);
    assert LowerTagsFrom(s, i) == "[" + Word(p) + "]" + LowerTagsFrom(s, j);
    TagStepFolds(s, i, p, LowerTagsFrom(s, j));
  }

  /** `LowerTagsFromFolds` where no tag starts at `i`. */
  lemma {:induction false} CopyCaseFolds(s: string, i: nat)
    requires i < |s| && TagAt(s, i).None?
    ensures |LowerTagsFrom(s, i)| == |s| - i && FoldsAt(LowerTagsFrom(s, i), s, i)
    decreases |s| - i, 0
  {
    LowerTagsFromFolds(s, i + 1);
    assert LowerTagsFrom(s, i) == [s[i]] + LowerTagsFrom(s, i + 1);
    CopyStepFolds(s, i, LowerTagsFrom(s, i + 1));
  }

  /** The copying case of the substitution keeps the folding. */
  lemma CopyStepFolds(s: string, i: nat, rest: string)
    requires i < |s| && |rest| == |s| - (i + 1) && FoldsAt(rest, s, i + 1)
    ensures |[s[i]] + rest| == |s| - i && FoldsAt([s[i]] + rest, s, i)
  {
    FoldsConcat([s[i]], rest, s, i, i + 1);
  }

  /** The tag case of the substitution keeps the folding. */
  lemma TagStepFolds(s: string, i: nat, p: Priority, rest: string)
    requires TagFor(s, i, p)
    requires |rest| == |s| - (i + |Word(p)| + 2) && FoldsAt(rest, s, i + |Word(p)| + 2)
    ensures |"[" + Word(p) + "]" + rest| == |s| - i && FoldsAt("[" + Word(p) + "]" + rest, s, i)
  {
    TagFolds(s, i, p);
    FoldsConcat("[" + Word(p) + "]", rest, s, i, i + |Word(p)| + 2);
  }

  /** Strings equal up to letter case. */
  predicate SameFold(s: string, t: string)
  {
    |s| == |t| && forall k :: 0 <= k < |s| ==> LowerChar(s[k]) == LowerChar(t[k])
  }

  /** `LowerTags(a)` equals `a` up to letter case. */
  lemma LowerTagsFold(s: string)
    ensures SameFold(LowerTags(s), s)
  {
    LowerTagsFromFolds(s, 0);
    assert forall k :: 0 <= k < |s| ==> s[0 + k] == s[k];
  }

  /** Only `[` folds to `[`. */
  lemma FoldBracket(c: char)
    ensures LowerChar(c) == '[' <==> c == '['
  {
  }

  /** `PRIO_RX` ignores case, so strings equal up to case hold the same tags. */
  lemma SameFoldTags(s: string, t: string, i: nat, p: Priority)
    requires SameFold(s, t)
    ensures TagFor(s, i, p) <==> TagFor(t, i, p)
  {
    var n := |Word(p)|;
    if i + n + 2 <= |s| {
      FoldBracket(s[i]);
      FoldBracket(t[i]);
      assert Lower(s[i + 1..i + 1 + n]) == Lower(t[i + 1..i + 1 + n]);
      assert LowerChar(s[i + 1 + n]) == LowerChar(t[i + 1 + n]);
      assert LowerChar(']') == ']';
    }
  }

  /** ... and so the same priority. */
  lemma SameFoldPriority(s: string, t: string)
    requires SameFold(s, t)
    ensures InferPriority(s) == InferPriority(t)
  {
    forall i, p ensures TagFor(s, i, p) <==> TagFor(t, i, p) {
      SameFoldTags(s, t, i, p);
    }
    match FirstTag(s, 0)
    case None =>
      forall m, p | 0 <= m <= |t| ensures !TagFor(t, m, p) {
        assert TagAt(s, m).None?;
      }
      InferPriorityUntagged(t);
    case Some(k) =>
      var p := TagAt(s, k).value;
      forall m | 0 <= m < k ensures TagAt(t, m).None? {
        assert TagAt(s, m).None?;
      }
      InferPriorityTagged(t, k, p);
  }

  /** Lower-casing the tags keeps the action's priority. */
  lemma LowerTagsPriority(a: string)
    ensures InferPriority(LowerTags(a)) == InferPriority(a)
  {
    LowerTagsFold(a);
    SameFoldPriority(LowerTags(a), a);
  }

  /** Text without `[` is copied unchanged. */
  lemma {:induction false} LowerTagsPlain(s: string, i: nat)
    requires i <= |s| && forall m :: i <= m < |s| ==> s[m] != '['
    ensures LowerTagsFrom(s, i) == s[i..]
    decreases |s| - i
  {
    if i < |s| {
      assert TagAt(s, i).None?;
      LowerTagsPlain(s, i + 1);
      assert s[i..] == [s[i]] + s[i + 1..];
    }
  }

  /** A leading tag in any case comes out as `[high]`, `[medium]` or
      `[low]`. */
  lemma LowerTagsLeading(tag: string, rest: string, p: Priority)
    requires |tag| == |Word(p)| + 2 && TagFor(tag, 0, p)
    requires forall m :: 0 <= m < |rest| ==> rest[m] != '['
    ensures LowerTags(tag + rest) == "[" + Word(p) + "]" + rest
  {
    var s := tag + rest;
    assert s[1..1 + |Word(p)|] == tag[1..1 + |Word(p)|];
    assert TagFor(s, 0, p);
    TagsDiffer(s, 0, p, TagAt(s, 0).value);
    LowerTagsPlain(s, |tag|);
    assert s[|tag|..] == rest;
  }

  /** The substitution over every action of a bucket. */
  function LowerAll(xs: seq<string>): (r: seq<string>)
    ensures |r| == |xs| && forall k :: 0 <= k < |xs| ==> r[k] == LowerTags(xs[k])
  {
    if xs == [] then [] else LowerAll(xs[..|xs| - 1]) + [LowerTags(xs[|xs| - 1])]
  }

  // ---------------------------------------------------------------------
  // The Actions section

  /** `prio` as the loop spells it. */
  function PrioTitle(p: Priority): string
  {
    match p
    case High => "High"
    case Medium => "Medium"
    case Low => "Low"
  }

  /** `("High", "Medium", "Low")`. */
  const Priorities: seq<Priority> := [High, Medium, Low]

  /** `s.lower()` as a sort key. */
  function LowerKey(a: string): Key
  {
    [Str(Lower(a))]
  }

  /** The actions of bucket `p`: in input order for the daily digest, and
      `sorted(..., key=lambda s: s.lower())` for a range. */
  function Shown(acts: seq<string>, p: Priority, sorted: bool): seq<string>
  {
    if sorted then StableSort(Bucket(acts, p), LowerKey) else Bucket(acts, p)
  }

  /** The block of bucket `p`. */
  function BucketLines(p: Priority, shown: seq<string>): seq<string>
  {
    Block("### " + PrioTitle(p) + " priority", "_No " + Word(p) + " priority actions._", LowerAll(shown))
  }

  /** The first `n` buckets, in the order High, Medium, Low. */
  function GroupedFrom(acts: seq<string>, sorted: bool, n: nat): seq<string>
    requires n <= |Priorities|
  {
    if n == 0 then [] else GroupedFrom(acts, sorted, n - 1) + BucketLines(Priorities[n - 1], Shown(acts, Priorities[n - 1], sorted))
  }

  /** All three buckets. */
  function GroupedLines(acts: seq<string>, sorted: bool): seq<string>
  {
    GroupedFrom(acts, sorted, 3)
  }

  /** The Actions section; the range digest closes an empty one with a blank
      line, the daily digest does not. */
  function ActionLines(acts: seq<string>, grouped: bool, range: bool): seq<string>
  {
    ["## Actions"]
      + (if acts == [] then ["_No actions._"] + (if range then [""] else [])
         else if grouped then GroupedLines(acts, range)
         else Dashed(acts) + [""])
  }

  /** One bucket: `### P priority`, its actions with their tags lower-cased,
      or `_No p priority actions._` when it is empty, then a blank line. */
  method EmitBucket(out: seq<string>, p: Priority, shown: seq<string>) returns (out': seq<string>)
    ensures out' == out + BucketLines(p, shown)
  {
    out' := EmitBlock(out, "### " + PrioTitle(p) + " priority", "_No " + Word(p) + " priority actions._", LowerAll(shown));
  }

  /** `groups` files every action under its priority. */
  predicate Grouped(groups: map<Priority, seq<string>>, acts: seq<string>)
  {
    forall p :: p in groups && groups[p] == Bucket(acts, p)
  }

  /** `groups = group_actions(acts)` and the loop over the priorities. */
  method EmitGrouped(out: seq<string>, acts: seq<string>, sorted: bool) returns (out': seq<string>)
    ensures out' == out + GroupedLines(acts, sorted)
  {
    var groups := GroupActions(acts);
    assert Grouped(groups, acts);
    out' := out;
    var i := 0;
    while i < |Priorities|
      invariant 0 <= i <= |Priorities|
      invariant out' == out + GroupedFrom(acts, sorted, i)
    {
      var next := i + 1;
      ghost var done := GroupedFrom(acts, sorted, i);
      ghost var more := BucketLines(Priorities[i], Shown(acts, Priorities[i], sorted));
      GroupedStep(acts, sorted, i, next);
      var o := EmitPriority(out', acts, groups, Priorities[i], sorted);
      AppendStep(out, done, more, out', o);
      out' := o;
      i := next;
    }
  }

  /** Appending to `out + done` appends to `done`. */
  lemma AppendStep<T>(out: seq<T>, done: seq<T>, more: seq<T>, before: seq<T>, after: seq<T>)
    requires before == out + done && after == before + more
    ensures after == out + (done + more)
  {
  }

  /** The bucket of `p`, sorted for a range. */
  method EmitPriority(out: seq<string>, acts: seq<string>, groups: map<Priority, seq<string>>, p: Priority, sorted: bool)
    returns (out': seq<string>)
    requires Grouped(groups, acts)
    ensures out' == out + BucketLines(p, Shown(acts, p, sorted))
  {
    assert p in groups && groups[p] == Bucket(acts, p);
    var shown := groups[p];
    if sorted {
      shown := StableSort(shown, LowerKey);
    }
    out' := EmitBucket(out, p, shown);
  }

  /** One more bucket. */
  lemma GroupedStep(acts: seq<string>, sorted: bool, i: nat, next: nat)
    requires next == i + 1 <= |Priorities|
    ensures GroupedFrom(acts, sorted, next)
      == GroupedFrom(acts, sorted, i) + BucketLines(Priorities[i], Shown(acts, Priorities[i], sorted))
  {
  }

  /** The Actions section, in either form. */
  method EmitActions(out: seq<string>, acts: seq<string>, grouped: bool, range: bool) returns (out': seq<string>)
    ensures out' == out + ActionLines(acts, grouped, range)
  {
    var head := out + ["## Actions"];
    ghost var tail: seq<string>;
    if acts == [] {
      out' := head + ["_No actions._"];
      tail := ["_No actions._"];
      if range {
        out' := out' + [""];
        tail := tail + [""];
      }
    } else if grouped {
      out' := EmitGrouped(head, acts, range);
      tail := GroupedLines(acts, range);
    } else {
      var dashed := EmitDashed(head, acts);
      out' := dashed + [""];
      tail := Dashed(acts) + [""];
    }
    AppendStep(out, ["## Actions"], tail, head, out');
  }

  /** The items read back from a bucket are the actions of that priority,
      tags lower-cased, and the bucket shows its placeholder exactly when it
      has none. */
  lemma BucketRoundTrip(p: Priority, shown: seq<string>)
    ensures BlockItems(BucketLines(p, shown)) == LowerAll(shown)
    ensures BucketLines(p, shown)[1] == "_No " + Word(p) + " priority actions._" <==> shown == []
  {
    BlockRoundTrip("### " + PrioTitle(p) + " priority", "_No " + Word(p) + " priority actions._", LowerAll(shown));
  }

  /** A bucket holds the actions of its priority, as often as the input
      does. */
  lemma ShownPermutation(acts: seq<string>, p: Priority, sorted: bool)
    ensures multiset(Shown(acts, p, sorted)) == multiset(Bucket(acts, p))
  {
    if sorted {
      StableSortPermutation(Bucket(acts, p), LowerKey);
    }
  }

  /** Every shown action, before and after its tags are lower-cased, has
      the bucket's priority. */
  lemma ShownPriority(acts: seq<string>, p: Priority, sorted: bool, a: string)
    requires a in Shown(acts, p, sorted)
    ensures a in acts && InferPriority(a) == p && InferPriority(LowerTags(a)) == p
  {
    ShownPermutation(acts, p, sorted);
    assert a in multiset(Bucket(acts, p));
    BucketMembers(acts, a, p);
    LowerTagsPriority(a);
  }

  /** `s.lower()` order: no later action is smaller, ignoring case. */
  predicate CaseInsensitiveOrder(s: seq<string>)
  {
    forall i, j :: 0 <= i < j < |s| ==> !StrLess(Lower(s[j]), Lower(s[i]))
  }

  /** The range digest lists each bucket in `s.lower()` order. */
  lemma ShownSorted(acts: seq<string>, p: Priority)
    ensures CaseInsensitiveOrder(Shown(acts, p, true))
  {
    var s := Shown(acts, p, true);
    StableSortSorted(Bucket(acts, p), LowerKey);
    forall i, j | 0 <= i < j < |s| ensures !StrLess(Lower(s[j]), Lower(s[i])) {
      KeyLessCons(Str(Lower(s[j])), [], Str(Lower(s[i])), []);
      assert LowerKey(s[j]) == [Str(Lower(s[j]))] + [];
      assert LowerKey(s[i]) == [Str(Lower(s[i]))] + [];
      if Lower(s[j]) == Lower(s[i]) {
        StrLessIrreflexive(Lower(s[j]));
      }
    }
  }

  /** Together the three buckets show every action exactly once. */
  lemma GroupedCovers(acts: seq<string>, sorted: bool)
    ensures multiset(Shown(acts, High, sorted)) + multiset(Shown(acts, Medium, sorted))
      + multiset(Shown(acts, Low, sorted)) == multiset(acts)
  {
    ShownPermutation(acts, High, sorted);
    ShownPermutation(acts, Medium, sorted);
    ShownPermutation(acts, Low, sorted);
    BucketsPartition(acts);
  }

  // ---------------------------------------------------------------------
  // render_md_daily

  /** `# Team Digest (YYYY-MM-DD)`. */
  function DailyTitle(day: DayDoc): string
    requires Dates.Valid(day.date)
  {
    "# Team Digest (" + Dates.Iso(day.date) + ")"
  }

  /** `extract_bullets(day.sections.get(sec, []))`. */
  function DayBullets(day: DayDoc, c: SectionName): seq<string>
  {
    Bullets(Get(day.sections, c))
  }

  /** Summary, Decisions, Actions, Risks, Dependencies, Notes. */
  function DailyBody(day: DayDoc, grouped: bool): seq<string>
  {
    SectionLines(Summary, DayBullets(day, Summary)) + SectionLines(Decisions, DayBullets(day, Decisions))
      + ActionLines(day.actions, grouped, false) + SectionLines(Risks, DayBullets(day, Risks))
      + SectionLines(Dependencies, DayBullets(day, Dependencies)) + SectionLines(Notes, DayBullets(day, Notes))
  }

  /** The lines of the daily digest. */
  function DailyLines(day: DayDoc, grouped: bool): seq<string>
    requires Dates.Valid(day.date)
  {
    [DailyTitle(day), ""] + DailyBody(day, grouped)
  }

  /** One narrative section of a day. */
  method EmitDaySection(out: seq<string>, day: DayDoc, c: SectionName) returns (out': seq<string>)
    ensures out' == out + SectionLines(c, DayBullets(day, c))
  {
    var bullets := ExtractBullets(Get(day.sections, c));
    out' := EmitBlock(out, "## " + Title(c), "_No " + Lower(Title(c)) + "._", bullets);
  }

  /** `render_md_daily`. */
  method RenderMdDaily(day: DayDoc, grouped: bool) returns (md: string)
    requires Dates.Valid(day.date)
    ensures md == DigestRender.Finish(DailyLines(day, grouped))
  {
    var lines := [DailyTitle(day), ""];
    var o1 := EmitDaySection(lines, day, Summary);
    var o2 := EmitDaySection(o1, day, Decisions);
    var o3 := EmitActions(o2, day.actions, grouped, false);
    var o4 := EmitDaySection(o3, day, Risks);
    var o5 := EmitDaySection(o4, day, Dependencies);
    var o6 := EmitDaySection(o5, day, Notes);
    DigestAggregate.Chain(lines, SectionLines(Summary, DayBullets(day, Summary)),
      SectionLines(Decisions, DayBullets(day, Decisions)), ActionLines(day.actions, grouped, false),
      SectionLines(Risks, DayBullets(day, Risks)), SectionLines(Dependencies, DayBullets(day, Dependencies)),
      SectionLines(Notes, DayBullets(day, Notes)), o1, o2, o3, o4, o5, o6);
    md := DigestRender.Finish(o6);
  }

  /** A line ending in a visible character is its own right-strip. */
  lemma RStripVisible(s: string)
    requires s != [] && s[|s| - 1] !in Whitespace
    ensures RStrip(s) == s
  {
    RStripInSuffix(s, [], Whitespace);
    assert s + [] == s;
  }

  /** Finished lines that open with `# title` start with that line,
      right-stripped, and end with exactly one newline. */
  lemma FinishTitled(out: seq<string>, title: string)
    requires out != [] && out[0] == "# " + title
    ensures var md := DigestRender.Finish(out);
      StartsWith(md, RStrip("# " + title)) && md[|md| - 1] == '\n' && (|md| == 1 || !IsSpace(md[|md| - 2]))
  {
    DigestAggregate.FinishFirstLine(out, title);
    DigestRender.FinishShape(out);
  }

  /** A `# ` title line ending in `)` comes out whole. */
  lemma FinishVisible(out: seq<string>, line: string)
    requires out != [] && out[0] == line && |line| >= 2 && line[..2] == "# " && line[|line| - 1] == ')'
    ensures var md := DigestRender.Finish(out);
      StartsWith(md, line) && md[|md| - 1] == '\n' && (|md| == 1 || !IsSpace(md[|md| - 2]))
  {
    assert line == "# " + line[2..];
    FinishTitled(out, line[2..]);
    RStripVisible(line);
  }

  /** The daily digest opens with its dated title and ends with exactly one
      newline, with no whitespace before it. */
  lemma DailyShape(day: DayDoc, grouped: bool)
    requires Dates.Valid(day.date)
    ensures var md := DigestRender.Finish(DailyLines(day, grouped));
      StartsWith(md, DailyTitle(day)) && md[|md| - 1] == '\n' && (|md| == 1 || !IsSpace(md[|md| - 2]))
  {
    var t := DailyTitle(day);
    assert t[|t| - 1] == ')' && t[..2] == "# ";
    FinishVisible(DailyLines(day, grouped), t);
  }

  // ---------------------------------------------------------------------
  // render_md_range

  /** The title, a blank line, the counts line and a blank line. */
  function RangeHead(title: string, start: Dates.Date, end: Dates.Date, src: string, docs: seq<DayDoc>): seq<string>
    requires Dates.Valid(start) && Dates.Valid(end)
  {
    ["# " + title, "", CountsLine(start, end, src, docs), ""]
  }

  /** `- **Actions:** T (High: h, Medium: m, Low: l)`. */
  function ActionsKpi(totals: Counts): string
  {
    "- **Actions:** " + Dates.Decimal(Total(totals)) + " (High: " + Dates.Decimal(totals.high) + ", Medium: "
      + Dates.Decimal(totals.medium) + ", Low: " + Dates.Decimal(totals.low) + ")"
  }

  /** The Executive KPIs block, from its figures. */
  function KpiBlock(totals: Counts, decisions: nat, risks: nat, owners: nat, days: nat): seq<string>
  {
    ["## Executive KPIs",
     ActionsKpi(totals),
     "- **Decisions:** " + Dates.Decimal(decisions) + "   \U{B7}   **Risks:** " + Dates.Decimal(risks),
     "- **Owners:** " + Dates.Decimal(owners) + "   \U{B7}   **Days with notes:** " + Dates.Decimal(days),
     ""]
  }

  /** The Executive KPIs block of a range. */
  function KpiLines(docs: seq<DayDoc>, agg: map<SectionName, seq<string>>): seq<string>
  {
    KpiBlock(SumCounts(docs), |Get(agg, Decisions)|, |Get(agg, Risks)|, Positive(OwnerTally(docs)), |docs|)
  }

  /** The three header lines of the owner table. */
  const TableHead: seq<string> :=
    ["#### Owner breakdown (top)", "| Owner | High | Medium | Low | Total |", "|:------|----:|------:|---:|-----:|"]

  /** The owner breakdown table. */
  function BreakdownLines(ranked: seq<Row>): seq<string>
  {
    TableHead + RowLines(ranked) + [""]
  }

  /** What `emit_kpis` and `owner_breakdown` add; the table needs at least
      one action. */
  function KpiPart(docs: seq<DayDoc>, agg: map<SectionName, seq<string>>, kpis: bool, breakdown: bool): seq<string>
  {
    if !kpis then []
    else KpiLines(docs, agg) + (if breakdown && Total(SumCounts(docs)) > 0 then BreakdownLines(Ranked(OwnerRows(docs))) else [])
  }

  /** The sections of a range, from the merged lists. */
  function RangeBody(agg: map<SectionName, seq<string>>, grouped: bool): seq<string>
  {
    SectionLines(Summary, Get(agg, Summary)) + SectionLines(Decisions, Get(agg, Decisions))
      + ActionLines(Get(agg, Actions), grouped, true) + SectionLines(Risks, Get(agg, Risks))
      + SectionLines(Dependencies, Get(agg, Dependencies)) + SectionLines(Notes, Get(agg, Notes))
  }

  /** The lines of a weekly or monthly digest. */
  function RangeLines(title: string, start: Dates.Date, end: Dates.Date, docs: seq<DayDoc>, src: string,
                      grouped: bool, kpis: bool, breakdown: bool): seq<string>
    requires Dates.Valid(start) && Dates.Valid(end)
  {
    RangeHead(title, start, end, src, docs) + KpiPart(docs, Aggregated(docs), kpis, breakdown)
      + RangeBody(Aggregated(docs), grouped)
  }

  /** The KPI block and, when asked for and there are actions, the owner
      breakdown. */
  method EmitKpis(out: seq<string>, docs: seq<DayDoc>, agg: map<SectionName, seq<string>>, breakdown: bool)
    returns (out': seq<string>)
    ensures out' == out + KpiPart(docs, agg, true, breakdown)
  {
    var totals := SumTotals(docs);
    var owners := CountOwners(docs);
    var totalActions := totals.high + totals.medium + totals.low;
    var ownersCount := Positive(owners);
    var kpi := KpiBlock(totals, |Get(agg, Decisions)|, |Get(agg, Risks)|, ownersCount, |docs|);
    assert kpi == KpiLines(docs, agg);
    if breakdown && totalActions > 0 {
      var ob := BuildBreakdown(docs);
      var ranked := StableSort(ob, RankKey);
      var table := EmitRows(TableHead, ranked);
      assert table + [""] == BreakdownLines(Ranked(OwnerRows(docs)));
      out' := out + (kpi + (table + [""]));
    } else {
      out' := out + (kpi + []);
    }
  }

  /** One narrative section of a range. */
  method EmitMerged(out: seq<string>, agg: map<SectionName, seq<string>>, c: SectionName) returns (out': seq<string>)
    ensures out' == out + SectionLines(c, Get(agg, c))
  {
    out' := EmitBlock(out, "## " + Title(c), "_No " + Lower(Title(c)) + "._", Get(agg, c));
  }

  /** A document assembled from a head made of two parts and a body. */
  lemma Assemble<T>(a: seq<T>, b: seq<T>, c: seq<T>, head: seq<T>, o: seq<T>)
    requires head == a + b && o == head + c
    ensures o == a + b + c
  {
  }

  /** `render_md_range`. */
  method RenderMdRange(title: string, start: Dates.Date, end: Dates.Date, docs: seq<DayDoc>, src: string,
                       grouped: bool, kpis: bool, breakdown: bool) returns (md: string)
    requires Dates.Valid(start) && Dates.Valid(end)
    ensures md == DigestRender.Finish(RangeLines(title, start, end, docs, src, grouped, kpis, breakdown))
  {
    var lines := ["# " + title, "", CountsLine(start, end, src, docs), ""];
    var agg := AggregateSections(docs);
    var head := lines;
    if kpis {
      head := EmitKpis(lines, docs, agg, breakdown);
    } else {
      assert head == lines + KpiPart(docs, agg, kpis, breakdown);
    }
    var o1 := EmitMerged(head, agg, Summary);
    var o2 := EmitMerged(o1, agg, Decisions);
    var o3 := EmitActions(o2, Get(agg, Actions), grouped, true);
    var o4 := EmitMerged(o3, agg, Risks);
    var o5 := EmitMerged(o4, agg, Dependencies);
    var o6 := EmitMerged(o5, agg, Notes);
    DigestAggregate.Chain(head, SectionLines(Summary, Get(agg, Summary)), SectionLines(Decisions, Get(agg, Decisions)),
      ActionLines(Get(agg, Actions), grouped, true), SectionLines(Risks, Get(agg, Risks)),
      SectionLines(Dependencies, Get(agg, Dependencies)), SectionLines(Notes, Get(agg, Notes)),
      o1, o2, o3, o4, o5, o6);
    Assemble(RangeHead(title, start, end, src, docs), KpiPart(docs, agg, kpis, breakdown), RangeBody(agg, grouped),
      head, o6);
    md := DigestRender.Finish(o6);
  }

  /** With days read by `parse_day_doc`, the KPI Actions total equals the
      counts line's figure and the number of merged actions, each
      priority's count is the size of its bucket, and the Owners figure is
      the number of distinct owners among the merged actions. */
  lemma KpisAgree(docs: seq<DayDoc>)
    requires WellCounted(docs)
    ensures Total(SumCounts(docs)) == TotalActions(docs) == |Aggregated(docs)[Actions]|
    ensures forall p :: CountOf(SumCounts(docs), p) == |Bucket(Aggregated(docs)[Actions], p)|
    ensures Positive(OwnerTally(docs)) == |Image(Aggregated(docs)[Actions], InferOwner)|
  {
    SumCountsActions(docs);
    AllActionsAggregated(docs);
    AggActionsCount(docs);
    OwnersKpi(docs);
  }

  /** A range digest opens with `# title` (right-stripped) and ends with
      exactly one newline, with no whitespace before it. */
  lemma RangeShape(title: string, start: Dates.Date, end: Dates.Date, docs: seq<DayDoc>, src: string,
                   grouped: bool, kpis: bool, breakdown: bool)
    requires Dates.Valid(start) && Dates.Valid(end)
    ensures var md := DigestRender.Finish(RangeLines(title, start, end, docs, src, grouped, kpis, breakdown));
      StartsWith(md, RStrip("# " + title)) && md[|md| - 1] == '\n' && (|md| == 1 || !IsSpace(md[|md| - 2]))
  {
    var head := RangeHead(title, start, end, src, docs);
    HeadFirst(head, KpiPart(docs, Aggregated(docs), kpis, breakdown), RangeBody(Aggregated(docs), grouped));
    FinishTitled(RangeLines(title, start, end, docs, src, grouped, kpis, breakdown), title);
  }

  /** The first line of a concatenation whose first part is not empty. */
  lemma HeadFirst<T>(a: seq<T>, b: seq<T>, c: seq<T>)
    requires a != []
    ensures a + b + c != [] && (a + b + c)[0] == a[0]
  {
  }
}
