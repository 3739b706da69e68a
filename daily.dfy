/** `scripts/digest_daily.py`: the digest of one day's log. The logs
    directory is a map from file name to contents; the date is the string
    given on the command line (the script's default, today in UTC, is left
    to the caller). */
module DigestDaily {
  import opened Text
  import opened Sections
  import opened LogText
  import opened ActionItems
  import opened Sorting
  import opened DigestRender
  import DigestAggregate

  /** The command line: `--logs-dir`, `--title`, `--group-actions`,
      `--sort-actions`. */
  datatype Options = Options(logsDir: string, title: string, groupActions: bool, sortActions: string)

  /** The log file of the day, `notes-{date}.md`. */
  function LogName(date: string): string
  {
    "notes-" + date + ".md"
  }

  /** `args.title`, else `Team Digest ({date})`. */
  function DailyTitle(o: Options, date: string): string
  {
    if o.title != [] then o.title else "Team Digest (" + date + ")"
  }

  /** What the script writes when the day has no log. */
  function MissingLog(o: Options, date: string): string
  {
    "# " + DailyTitle(o, date) + "\n\n_No log for " + date + " in " + o.logsDir + "_\n"
  }

  // ---------------------------------------------------------------------
  // --sort-actions

  /** `[k.strip().lower() for k in pieces if k.strip()]`. */
  function Fields(pieces: seq<string>): (r: seq<string>)
    ensures forall i :: 0 <= i < |r| ==> r[i] != []
  {
    if pieces == [] then []
    else
      var k := Strip(pieces[|pieces| - 1]);
      Fields(pieces[..|pieces| - 1]) + (if k != [] then [Lower(k)] else [])
  }

  /** The sort fields named by `--sort-actions`, in the order given. */
  function SortFields(spec: string): seq<string>
  {
    Fields(Split(spec, ","))
  }

  /** The three field names `sort_key` understands. */
  predicate Known(f: string)
  {
    f == "priority" || f == "name" || f == "text"
  }

  /** The key part a known field contributes: the rank, the lower-cased
      owner name, or the lower-cased text. */
  function FieldPart(f: string, it: Item): KeyPart
    requires Known(f)
  {
    if f == "priority" then Num(it.rank) else if f == "name" then Str(it.who) else Str(Lower(it.text))
  }

  /** What one field appends to `parts`: its part when known, else nothing. */
  function Part(f: string, it: Item): (r: Key)
    ensures Known(f) ==> r == [FieldPart(f, it)]
    ensures !Known(f) ==> r == []
  {
    if Known(f) then [FieldPart(f, it)] else []
  }

  /** `parts` after the loop of `sort_key`: one part per known field, in
      the order the fields are given; unknown fields are skipped. */
  function Parts(keys: seq<string>, it: Item): (r: Key)
    ensures |r| == |Filter(keys, Known)|
    ensures forall i :: 0 <= i < |r| ==> Known(Filter(keys, Known)[i]) && r[i] == FieldPart(Filter(keys, Known)[i], it)
  {
    if keys == [] then []
    else
      var init := keys[..|keys| - 1];
      var f := keys[|keys| - 1];
      assert keys == init + [f];
      FilterAppend(init, [f], Known);
      assert Filter([f], Known) == (if Known(f) then [f] else []);
      Parts(init, it) + Part(f, it)
  }

  /** The key `sort_key` returns: the parts, or `(rank, who, text.lower())`
      when no field is known. */
  function KeyOf(keys: seq<string>, it: Item): Key
  {
    var p := Parts(keys, it);
    if p == [] then PriorityKey(it) else p
  }

  /** The sort key the options choose. */
  function KeyFn(o: Options): Item -> Key
  {
    it => KeyOf(SortFields(o.sortActions), it)
  }

  lemma PartsSnoc(keys: seq<string>, i: nat, it: Item)
    requires i < |keys|
    ensures Parts(keys[..i + 1], it) == Parts(keys[..i], it) + Part(keys[i], it)
  {
    TakeSnoc(keys, i);
  }

  /** `sort_key(item)`. */
  method SortKey(keys: seq<string>, it: Item) returns (key: Key)
    ensures key == KeyOf(keys, it)
  {
    var parts: Key := [];
    var i := 0;
    while i < |keys|
      invariant 0 <= i <= |keys|
      invariant parts == Parts(keys[..i], it)
    {
      var k := keys[i];
      PartsSnoc(keys, i, it);
      if k == "priority" {
        parts := parts + [Num(it.rank)];
      } else if k == "name" {
        parts := parts + [Str(it.who)];
      } else if k == "text" {
        parts := parts + [Str(Lower(it.text))];
      }
      i := i + 1;
    }
    assert keys[..|keys|] == keys;
    key := if parts != [] then parts else [Num(it.rank), Str(it.who), Str(Lower(it.text))];
  }

  /** Fields the key does not know fall back to the default order. */
  lemma UnknownFieldsDefault(keys: seq<string>, it: Item)
    requires forall f :: f in keys ==> !Known(f)
    ensures KeyOf(keys, it) == PriorityKey(it)
  {
    var fs := Filter(keys, Known);
    if fs != [] {
      FilterMembers(keys, Known, fs[0]);
    }
  }

  /** With at least one known field the key is exactly the known fields'
      parts, in order. */
  lemma KnownFieldsKey(keys: seq<string>, it: Item, f: string)
    requires f in keys && Known(f)
    ensures KeyOf(keys, it) == Parts(keys, it) && |KeyOf(keys, it)| == |Filter(keys, Known)| > 0
  {
    FilterMembers(keys, Known, f);
  }

  /** A comma-free piece before a comma is the first field of the rest. */
  lemma SplitFromPiece(s: string, i: nat, a: string)
    requires i + |a| < |s| && s[i..i + |a|] == a && s[i + |a|] == ',' && ',' !in a
    ensures SplitFrom(s, ",", i) == [a] + SplitFrom(s, ",", i + |a| + 1)
  {
    forall k | i <= k < i + |a| ensures !At(s, k, ",") {
      assert s[k] == a[k - i];
    }
    FindIs(s, ",", i, i + |a|);
  }

  /** A comma-free tail is the last field. */
  lemma SplitFromLast(s: string, i: nat)
    requires i <= |s| && ',' !in s[i..]
    ensures SplitFrom(s, ",", i) == [s[i..]]
  {
    forall k | i <= k <= |s| ensures !At(s, k, ",") {
      if k < |s| { assert s[k] == s[i..][k - i]; }
    }
    FindNone(s, ",", i);
  }

  /** Three comma-free pieces joined by commas split back into them. */
  lemma SplitThree(s: string, a: string, b: string, c: string)
    requires s == a + "," + b + "," + c && ',' !in a && ',' !in b && ',' !in c
    ensures Split(s, ",") == [a, b, c]
  {
    var i := |a| + 1;
    var j := i + |b| + 1;
    ThreeLayout(s, a, b, c, i, j);
    SplitFromPiece(s, 0, a);
    SplitFromPiece(s, i, b);
    SplitFromLast(s, j);
    assert Split(s, ",") == [a] + ([b] + [c]);
  }

  /** Where the pieces and the commas of `a,b,c` sit. */
  lemma ThreeLayout(s: string, a: string, b: string, c: string, i: nat, j: nat)
    requires s == a + "," + b + "," + c && i == |a| + 1 && j == i + |b| + 1
    ensures j <= |s| && s[0..|a|] == a && s[|a|] == ',' && s[i..i + |b|] == b && s[i + |b|] == ',' && s[j..] == c
  {
  }

  /** A field name without blanks or capitals is its own field. */
  lemma CleanField(f: string)
    requires f != [] && forall c :: c in f ==> 'a' <= c <= 'z'
    ensures Strip(f) == f && Lower(f) == f
  {
    assert f[0] in f && f[|f| - 1] in f;
    assert forall i :: 0 <= i < |f| ==> f[i] in f;
    StripInOfClean(f, Whitespace);
  }

  /** Pieces that are already clean field names are kept as they are. */
  lemma {:induction false} FieldsOfClean(ps: seq<string>)
    requires CleanNames(ps)
    ensures Fields(ps) == ps
  {
    if ps != [] {
      var init, last := ps[..|ps| - 1], ps[|ps| - 1];
      assert CleanNames(init) by {
        assert forall i :: 0 <= i < |init| ==> init[i] == ps[i];
      }
      FieldsOfClean(init);
      assert Strip(last) == last && Lower(last) == last && last != [];
      assert Fields(ps) == Fields(init) + [Lower(Strip(last))];
      assert ps == init + [last];
    }
  }

  /** Every piece is a non-empty, stripped, lower-case name. */
  predicate CleanNames(ps: seq<string>)
  {
    forall i :: 0 <= i < |ps| ==> ps[i] != [] && Strip(ps[i]) == ps[i] && Lower(ps[i]) == ps[i]
  }

  /** The default `--sort-actions` names the three fields in order. */
  lemma DefaultFields(s: string)
    requires s == "priority,name,text"
    ensures SortFields(s) == ["priority", "name", "text"]
  {
    assert s == "priority" + "," + "name" + "," + "text";
    var ps := ["priority", "name", "text"];
    SplitThree(s, "priority", "name", "text");
    DefaultNamesClean(ps);
    FieldsOfClean(ps);
  }

  lemma DefaultNamesClean(ps: seq<string>)
    requires ps == ["priority", "name", "text"]
    ensures CleanNames(ps)
  {
    CleanField(ps[0]);
    CleanField(ps[1]);
    CleanField(ps[2]);
  }

  /** The default sort is the priority order: rank, then name, then text. */
  lemma DefaultKeyIsPriority(o: Options, it: Item)
    requires o.sortActions == "priority,name,text"
    ensures KeyFn(o)(it) == PriorityKey(it)
  {
    DefaultFields(o.sortActions);
    var keys := ["priority", "name", "text"];
    assert Filter(keys, Known) == keys by {
      assert keys[1..] == ["name", "text"] && keys[1..][1..] == ["text"] && keys[1..][1..][1..] == [];
    }
  }

  /** Sorting with keys that agree on every item gives the same list. */
  lemma {:induction false} StableSortSameKey(xs: seq<Item>, f: Item -> Key, g: Item -> Key)
    requires forall it :: f(it) == g(it)
    ensures StableSort(xs, f) == StableSort(xs, g)
  {
    if xs != [] {
      StableSortSameKey(xs[1..], f, g);
      InsertSameKey(xs[0], StableSort(xs[1..], f), f, g);
    }
  }

  lemma {:induction false} InsertSameKey(x: Item, r: seq<Item>, f: Item -> Key, g: Item -> Key)
    requires forall it :: f(it) == g(it)
    ensures Insert(x, r, f) == Insert(x, r, g)
  {
    if r != [] {
      InsertSameKey(x, r[1..], f, g);
    }
  }

  // ---------------------------------------------------------------------
  // Render

  /** An action line: the cleaned text, tag included. */
  function TextLine(it: Item): string
  {
    "- " + it.text
  }

  /** The Actions part: nothing without items; else the heading and the
      sorted items, in priority buckets or as one list. */
  function ActionsPart(o: Options, items: seq<Item>): seq<string>
  {
    if items == [] then []
    else if o.groupActions then ["## Actions"] + GroupedLines(StableSort(items, KeyFn(o)), TextLine)
    else ["## Actions"] + Lines(StableSort(items, KeyFn(o)), TextLine) + [[]]
  }

  /** The sections, in order: Summary, Decisions, Actions, Risks,
      Dependencies, Notes. */
  function SectionLines(o: Options, acc: map<SectionName, seq<string>>, items: seq<Item>): seq<string>
    requires forall k: SectionName :: k in acc
  {
    BlockLines("Summary", acc[Summary])
      + BlockLines("Decisions", acc[Decisions])
      + ActionsPart(o, items)
      + BlockLines("Risks", acc[Risks])
      + BlockLines("Dependencies", acc[Dependencies])
      + BlockLines("Notes", acc[Notes])
  }

  /** The lines of the digest of one log: the title, a blank line, and the
      sections `collected` and `action_items` give after that log, which are
      what the aggregate script gathers from a range of that one log. */
  function DailyLines(o: Options, date: string, text: string): seq<string>
  {
    ["# " + DailyTitle(o, date), ""]
      + SectionLines(o, DigestAggregate.Accumulated([text]), DigestAggregate.AllItems([text]))
  }

  /** The file the script writes. */
  function DailyOutput(o: Options, logs: map<string, string>, date: string): string
  {
    var name := LogName(date);
    if name in logs then Finish(DailyLines(o, date, logs[name])) else MissingLog(o, date)
  }

  /** The Actions part, in the view the options choose. */
  method EmitActions(out: seq<string>, o: Options, items: seq<Item>) returns (out': seq<string>)
    ensures out' == out + ActionsPart(o, items)
  {
    out' := out;
    if items != [] {
      var head := ["## Actions"];
      var s := StableSort(items, KeyFn(o));
      if o.groupActions {
        out' := EmitBuckets(out + head, s, TextLine);
        Ungroup(out, head, GroupedLines(s, TextLine), out');
      } else {
        out' := EmitFlat(out + head, s, TextLine);
        Regroup3(out, head, Lines(s, TextLine), [[]], out');
      }
    }
  }

  /** The sections, in order, after the title. */
  method EmitSections(out: seq<string>, o: Options, acc: map<SectionName, seq<string>>, items: seq<Item>)
    returns (out': seq<string>)
    requires forall k: SectionName :: k in acc
    ensures out' == out + SectionLines(o, acc, items)
  {
    ghost var b1, b2 := BlockLines("Summary", acc[Summary]), BlockLines("Decisions", acc[Decisions]);
    ghost var a := ActionsPart(o, items);
    ghost var b3, b4 := BlockLines("Risks", acc[Risks]), BlockLines("Dependencies", acc[Dependencies]);
    ghost var b5 := BlockLines("Notes", acc[Notes]);
    var o1 := EmitBlock(out, "Summary", acc[Summary]);
    var o2 := EmitBlock(o1, "Decisions", acc[Decisions]);
    var o3 := EmitActions(o2, o, items);
    var o4 := EmitBlock(o3, "Risks", acc[Risks]);
    var o5 := EmitBlock(o4, "Dependencies", acc[Dependencies]);
    out' := EmitBlock(o5, "Notes", acc[Notes]);
    DigestAggregate.Chain(out, b1, b2, a, b3, b4, b5, o1, o2, o3, o4, o5, out');
    assert SectionLines(o, acc, items) == b1 + b2 + a + b3 + b4 + b5;
  }

  /** `collected` and `action_items` after the one log. */
  method ReadLog(text: string) returns (acc: map<SectionName, seq<string>>, items: seq<Item>)
    ensures acc == DigestAggregate.Accumulated([text]) && items == DigestAggregate.AllItems([text])
  {
    var empty := DigestAggregate.AccMap([], [], [], [], [], []);
    assert empty == DigestAggregate.Accumulated([]);
    acc, items := DigestAggregate.AddDay(empty, [], text);
    DigestAggregate.AccumulatedStep(empty, acc, [], text);
    DigestAggregate.AllItemsStep([], text);
    assert [] + [text] == [text];
  }

  /** `main()` of the daily script, after argument parsing. */
  method Daily(o: Options, logs: map<string, string>, date: string) returns (text: string)
    ensures text == DailyOutput(o, logs, date)
  {
    var name := LogName(date);
    if name !in logs {
      return MissingLog(o, date);
    }
    var acc, items := ReadLog(logs[name]);
    var out := ["# " + DailyTitle(o, date), ""];
    out := EmitSections(out, o, acc, items);
    text := Finish(out);
  }

  // ---------------------------------------------------------------------
  // What the daily digest promises

  /** Either way the file starts with the title line. */
  lemma DailyStartsWithTitle(o: Options, logs: map<string, string>, date: string)
    ensures StartsWith(DailyOutput(o, logs, date), RStrip("# " + DailyTitle(o, date)))
  {
    var name := LogName(date);
    var head := "# " + DailyTitle(o, date);
    if name in logs {
      DigestAggregate.FinishFirstLine(DailyLines(o, date, logs[name]), DailyTitle(o, date));
    } else {
      var k := BackIn(head, |head|, Whitespace);
      assert RStrip(head) == head[..k];
      assert MissingLog(o, date)[..|head|] == head;
    }
  }

  /** The Actions list holds every action item exactly once, sorted by the
      chosen key; equal keys keep the order the log gave them. */
  lemma ActionsSortedPermutation(o: Options, items: seq<Item>, k: Key)
    ensures var s := StableSort(items, KeyFn(o));
      && SortedBy(s, KeyFn(o)) && multiset(s) == multiset(items)
      && Having(s, KeyFn(o), k) == Having(items, KeyFn(o), k)
  {
    StableSortSorted(items, KeyFn(o));
    StableSortPermutation(items, KeyFn(o));
    StableSortStable(items, KeyFn(o), k);
  }

  /** Whatever `--sort-actions` names, the grouped view files each sorted
      item under the bucket of its own level, and the four buckets together
      hold every action item of the log exactly once. */
  lemma GroupedPermutation(o: Options, text: string)
    ensures var items := DigestAggregate.AllItems([text]);
      var s := StableSort(items, KeyFn(o));
      && (o.groupActions && items != [] ==> ActionsPart(o, items) == ["## Actions"] + GroupedLines(s, TextLine))
      && multiset(AllBuckets(s)) == multiset(items)
      && forall h: Level, k :: 0 <= k < |Bucket(s, h)| ==> Bucket(s, h)[k].level == h
  {
    var items := DigestAggregate.AllItems([text]);
    StableSortPermutation(items, KeyFn(o));
    AllBucketsPermutation(StableSort(items, KeyFn(o)));
  }

  /** Under the default sort the grouped view lists the same lines, in the
      same order, as the flat view, split under bucket headings. */
  lemma DefaultGroupedInOrder(o: Options, text: string)
    requires o.sortActions == "priority,name,text"
    ensures var s := StableSort(DigestAggregate.AllItems([text]), KeyFn(o));
      Lines(Bucket(s, High), TextLine) + Lines(Bucket(s, Medium), TextLine) + Lines(Bucket(s, Low), TextLine)
        + Lines(Bucket(s, Other), TextLine) == Lines(s, TextLine)
  {
    var items := DigestAggregate.AllItems([text]);
    forall it ensures KeyFn(o)(it) == PriorityKey(it) {
      DefaultKeyIsPriority(o, it);
    }
    StableSortSameKey(items, KeyFn(o), PriorityKey);
    GroupedInSortedOrder(items, TextLine);
  }
}
