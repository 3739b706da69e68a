/** The Markdown both digest scripts write: `emit_block` for a narrative
    section, the Actions list flat or in priority buckets, and the final
    `"\n".join(out).rstrip() + "\n"`. */
module DigestRender {
  import opened Text
  import opened LogText
  import opened ActionItems
  import opened Sorting

  // ---------------------------------------------------------------------
  // emit_block

  /** `[x for x in items if x]`. */
  function NonEmpty(items: seq<string>): (r: seq<string>)
    ensures |r| <= |items|
    ensures forall k :: 0 <= k < |r| ==> r[k] != []
  {
    if items == [] then []
    else NonEmpty(items[..|items| - 1]) + (if items[|items| - 1] != [] then [items[|items| - 1]] else [])
  }

  /** Each entry followed by a blank line. */
  function Spaced(items: seq<string>): (r: seq<string>)
    ensures |r| == 2 * |items|
    ensures forall k :: 0 <= k < |items| ==> r[2 * k] == items[k] && r[2 * k + 1] == []
  {
    if items == [] then [] else Spaced(items[..|items| - 1]) + [items[|items| - 1], []]
  }

  /** The lines `emit_block` adds: nothing for a section without entries,
      else its heading and each entry followed by a blank line. */
  function BlockLines(name: string, items: seq<string>): seq<string>
  {
    var kept := NonEmpty(items);
    if kept == [] then [] else ["## " + name] + Spaced(kept)
  }

  /** A section with entries gets its heading and every entry, in order; one
      without gets nothing. */
  lemma BlockLinesShape(name: string, items: seq<string>)
    ensures NonEmpty(items) == [] <==> BlockLines(name, items) == []
    ensures var b := BlockLines(name, items); var kept := NonEmpty(items);
      kept != [] ==> (|b| == 2 * |kept| + 1 && b[0] == "## " + name
        && forall k :: 0 <= k < |kept| ==> b[2 * k + 1] == kept[k] && b[2 * k + 2] == [])
  {
  }

  /** One more item: kept when it is not empty. */
  lemma NonEmptySnoc(items: seq<string>, i: nat)
    requires i < |items|
    ensures NonEmpty(items[..i + 1]) == NonEmpty(items[..i]) + (if items[i] != [] then [items[i]] else [])
  {
    TakeSnoc(items, i);
  }

  /** One more entry: it and a blank line. */
  lemma SpacedSnoc(items: seq<string>, i: nat)
    requires i < |items|
    ensures Spaced(items[..i + 1]) == Spaced(items[..i]) + [items[i], []]
  {
    TakeSnoc(items, i);
  }

  /** The first loop of `emit_block`: the entries that are not empty. */
  method KeepNonEmpty(items: seq<string>) returns (kept: seq<string>)
    ensures kept == NonEmpty(items)
  {
    kept := [];
    var i := 0;
    while i < |items|
      invariant 0 <= i <= |items|
      invariant kept == NonEmpty(items[..i])
    {
      NonEmptySnoc(items, i);
      if items[i] != [] {
        kept := kept + [items[i]];
      }
      i := i + 1;
    }
    assert items[..|items|] == items;
  }

  /** The second loop of `emit_block`: each entry and a blank line. */
  method EmitSpaced(out: seq<string>, kept: seq<string>) returns (out': seq<string>)
    ensures out' == out + Spaced(kept)
  {
    out' := out;
    var i := 0;
    while i < |kept|
      invariant 0 <= i <= |kept|
      invariant out' == out + Spaced(kept[..i])
    {
      SpacedSnoc(kept, i);
      Regroup(out, Spaced(kept[..i]), [kept[i], []], out + Spaced(kept[..i + 1]));
      out' := out' + [kept[i], []];
      i := i + 1;
    }
    assert kept[..|kept|] == kept;
  }

  /** `emit_block(name)`. */
  method EmitBlock(out: seq<string>, name: string, items: seq<string>) returns (out': seq<string>)
    ensures out' == out + BlockLines(name, items)
  {
    var kept := KeepNonEmpty(items);
    if kept == [] {
      out' := out;
      assert BlockLines(name, items) == [];
      return;
    }
    out' := EmitSpaced(out + ["## " + name], kept);
    Ungroup(out, ["## " + name], Spaced(kept), out');
  }

  // ---------------------------------------------------------------------
  // Actions

  /** `[line(x) for x in xs]`. */
  function Lines(xs: seq<Item>, line: Item -> string): (r: seq<string>)
    ensures |r| == |xs|
    ensures forall k :: 0 <= k < |xs| ==> r[k] == line(xs[k])
  {
    if xs == [] then [] else Lines(xs[..|xs| - 1], line) + [line(xs[|xs| - 1])]
  }

  /** The flat Actions list: one line per item, then a blank line. */
  method EmitFlat(out: seq<string>, xs: seq<Item>, line: Item -> string) returns (out': seq<string>)
    ensures out' == out + Lines(xs, line) + [[]]
  {
    out' := out;
    var i := 0;
    while i < |xs|
      invariant 0 <= i <= |xs|
      invariant out' == out + Lines(xs[..i], line)
    {
      assert xs[..i + 1][..i] == xs[..i];
      out' := out' + [line(xs[i])];
      i := i + 1;
    }
    assert xs[..|xs|] == xs;
    out' := out' + [[]];
  }

  /** The items of one bucket, in list order. */
  function Bucket(xs: seq<Item>, head: Level): (r: seq<Item>)
    ensures |r| <= |xs|
    ensures forall k :: 0 <= k < |r| ==> r[k].level == head
  {
    if xs == [] then []
    else Bucket(xs[..|xs| - 1], head) + (if xs[|xs| - 1].level == head then [xs[|xs| - 1]] else [])
  }

  /** Appending an item adds its line to its own bucket's lines only. */
  lemma LinesBucketSnoc(ys: seq<Item>, x: Item, head: Level, line: Item -> string)
    ensures Lines(Bucket(ys + [x], head), line)
      == Lines(Bucket(ys, head), line) + (if x.level == head then [line(x)] else [])
  {
    BucketSnoc(ys, x, head);
    var b := Bucket(ys, head);
    if x.level == head {
      assert (b + [x])[..|b|] == b;
    }
  }

  /** Adding an item's line to its own bucket keeps every bucket equal to
      the lines of its items so far. */
  lemma FillStep(buckets: map<Level, seq<string>>, filled: map<Level, seq<string>>, xs: seq<Item>, i: nat,
                 line: Item -> string)
    requires i < |xs|
    requires forall h: Level :: h in buckets && buckets[h] == Lines(Bucket(xs[..i], h), line)
    requires filled == buckets[xs[i].level := buckets[xs[i].level] + [line(xs[i])]]
    ensures forall h: Level :: h in filled && filled[h] == Lines(Bucket(xs[..i + 1], h), line)
  {
    TakeSnoc(xs, i);
    forall h: Level
      ensures h in filled && filled[h] == Lines(Bucket(xs[..i + 1], h), line)
    {
      LinesBucketSnoc(xs[..i], xs[i], h, line);
    }
  }

  /** The four buckets start out empty. */
  lemma EmptyBuckets(buckets: map<Level, seq<string>>)
    requires buckets == map[High := [], Medium := [], Low := [], Other := []]
    ensures forall h: Level :: h in buckets && buckets[h] == []
  {
    forall h: Level
      ensures h in buckets && buckets[h] == []
    {
      if h.High? {} else if h.Medium? {} else if h.Low? {} else {}
    }
  }

  /** Filling the four buckets in one pass over the items. */
  method FillBuckets(xs: seq<Item>, line: Item -> string) returns (buckets: map<Level, seq<string>>)
    ensures forall h: Level :: h in buckets && buckets[h] == Lines(Bucket(xs, h), line)
  {
    buckets := map[High := [], Medium := [], Low := [], Other := []];
    EmptyBuckets(buckets);
    assert xs[..0] == [];
    var i := 0;
    while i < |xs|
      invariant 0 <= i <= |xs|
      invariant forall h: Level :: h in buckets && buckets[h] == Lines(Bucket(xs[..i], h), line)
    {
      var key := xs[i].level;
      var filled := buckets[key := buckets[key] + [line(xs[i])]];
      FillStep(buckets, filled, xs, i, line);
      buckets := filled;
      i := i + 1;
    }
    assert xs[..|xs|] == xs;
  }

  /** The heading words of the buckets, in output order. */
  function HeadTitle(head: Level): string
  {
    match head
    case High => "High"
    case Medium => "Medium"
    case Low => "Low"
    case Other => "Other"
  }

  /** The lines of one bucket: its heading, its lines, a blank line; nothing
      when empty. */
  function BucketLines(head: Level, lines: seq<string>): seq<string>
  {
    if lines == [] then [] else ["### " + HeadTitle(head) + " priority"] + lines + [[]]
  }

  /** The sections of the first `n` buckets, in the order high, medium,
      low, other. */
  function BucketSections(xs: seq<Item>, line: Item -> string, n: nat): seq<string>
    requires n <= |Levels|
  {
    if n == 0 then []
    else BucketSections(xs, line, n - 1) + BucketLines(Levels[n - 1], Lines(Bucket(xs, Levels[n - 1]), line))
  }

  /** The grouped Actions list, bucket by bucket. */
  function GroupedLines(xs: seq<Item>, line: Item -> string): seq<string>
  {
    BucketSections(xs, line, |Levels|)
  }

  /** The sections of the first `n` filled buckets. */
  function SectionsOf(buckets: map<Level, seq<string>>, n: nat): seq<string>
    requires n <= |Levels| && forall h: Level :: h in buckets
  {
    if n == 0 then [] else SectionsOf(buckets, n - 1) + BucketLines(Levels[n - 1], buckets[Levels[n - 1]])
  }

  lemma {:induction false} SectionsOfBuckets(buckets: map<Level, seq<string>>, xs: seq<Item>, line: Item -> string, n: nat)
    requires n <= |Levels|
    requires forall h: Level :: h in buckets && buckets[h] == Lines(Bucket(xs, h), line)
    ensures SectionsOf(buckets, n) == BucketSections(xs, line, n)
  {
    if n > 0 {
      SectionsOfBuckets(buckets, xs, line, n - 1);
    }
  }

  /** One bucket written out: its heading, its lines and a blank line,
      or nothing when it is empty. */
  method WriteBucket(out: seq<string>, head: Level, lines: seq<string>) returns (out': seq<string>)
    ensures out' == out + BucketLines(head, lines)
  {
    out' := out;
    if lines != [] {
      out' := out' + (["### " + HeadTitle(head) + " priority"] + lines + [[]]);
    }
  }

  /** Writing filled buckets out, in the order high, medium, low, other. */
  method WriteBuckets(out: seq<string>, buckets: map<Level, seq<string>>) returns (out': seq<string>)
    requires forall h: Level :: h in buckets
    ensures out' == out + SectionsOf(buckets, |Levels|)
  {
    out' := out;
    var i := 0;
    while i < |Levels|
      invariant 0 <= i <= |Levels|
      invariant out' == out + SectionsOf(buckets, i)
    {
      var head := Levels[i];
      out' := WriteBucket(out', head, buckets[head]);
      Ungroup(out, SectionsOf(buckets, i), BucketLines(head, buckets[head]), out');
      i := i + 1;
    }
  }

  /** The grouped Actions list: fill the buckets, then write them out. */
  method EmitBuckets(out: seq<string>, xs: seq<Item>, line: Item -> string) returns (out': seq<string>)
    ensures out' == out + GroupedLines(xs, line)
  {
    var buckets := FillBuckets(xs, line);
    out' := WriteBuckets(out, buckets);
    SectionsOfBuckets(buckets, xs, line, |Levels|);
  }

  // ---------------------------------------------------------------------
  // Buckets against the sorted list

  /** A bucket is empty when no item goes to it. */
  lemma {:induction false} BucketNone(xs: seq<Item>, head: Level)
    requires forall k :: 0 <= k < |xs| ==> xs[k].level != head
    ensures Bucket(xs, head) == []
  {
    if xs != [] {
      BucketNone(xs[..|xs| - 1], head);
    }
  }

  /** Appending an item adds it to its own bucket only. */
  lemma BucketSnoc(ys: seq<Item>, x: Item, head: Level)
    ensures Bucket(ys + [x], head) == Bucket(ys, head) + (if x.level == head then [x] else [])
  {
    assert (ys + [x])[..|ys|] == ys;
  }

  /** All four buckets of `ys`, end to end. */
  function AllBuckets(ys: seq<Item>): seq<Item>
  {
    Bucket(ys, High) + Bucket(ys, Medium) + Bucket(ys, Low) + Bucket(ys, Other)
  }

  /** Whatever their order, the four buckets together hold every item
      exactly as often as the list does. */
  lemma {:induction false} AllBucketsPermutation(ys: seq<Item>)
    ensures multiset(AllBuckets(ys)) == multiset(ys)
  {
    forall e: Item
      ensures multiset(AllBuckets(ys))[e] == multiset(ys)[e]
    {
      BucketsSum(ys);
      BucketCount(ys, High, e);
      BucketCount(ys, Medium, e);
      BucketCount(ys, Low, e);
      BucketCount(ys, Other, e);
    }
  }

  /** The multiset of the four buckets end to end is the sum of theirs. */
  lemma BucketsSum(ys: seq<Item>)
    ensures multiset(AllBuckets(ys)) == multiset(Bucket(ys, High)) + multiset(Bucket(ys, Medium))
      + multiset(Bucket(ys, Low)) + multiset(Bucket(ys, Other))
  {
  }

  /** A bucket holds every item of its level as often as the list does, and
      no other item. */
  lemma {:induction false} BucketCount(ys: seq<Item>, head: Level, e: Item)
    ensures multiset(Bucket(ys, head))[e] == if e.level == head then multiset(ys)[e] else 0
  {
    if ys != [] {
      var init, x := ys[..|ys| - 1], ys[|ys| - 1];
      BucketCount(init, head, e);
      assert ys == init + [x];
      BucketSnocMultiset(init, x, head);
    }
  }

  /** One more item adds itself to its own bucket's multiset only. */
  lemma BucketSnocMultiset(ys: seq<Item>, x: Item, head: Level)
    ensures multiset(Bucket(ys + [x], head))
      == multiset(Bucket(ys, head)) + (if x.level == head then multiset{x} else multiset{})
  {
    BucketSnoc(ys, x, head);
  }

  /** Appending an item whose rank is at least every earlier rank keeps the
      buckets laid end to end equal to the list. */
  lemma AllBucketsSnoc(ys: seq<Item>, x: Item)
    requires AllBuckets(ys) == ys
    requires forall k :: 0 <= k < |ys| ==> Rank(ys[k].level) <= Rank(x.level)
    ensures AllBuckets(ys + [x]) == ys + [x]
  {
    var h, m, l, o := Bucket(ys, High), Bucket(ys, Medium), Bucket(ys, Low), Bucket(ys, Other);
    var h', m', l', o' := Bucket(ys + [x], High), Bucket(ys + [x], Medium), Bucket(ys + [x], Low), Bucket(ys + [x], Other);
    BucketSnoc(ys, x, High);
    BucketSnoc(ys, x, Medium);
    BucketSnoc(ys, x, Low);
    BucketSnoc(ys, x, Other);
    match x.level
    case High =>
      BucketNone(ys, Other);
      BucketNone(ys, Low);
      BucketNone(ys, Medium);
      Place(h, m, l, o, h', m', l', o', x, 0);
    case Medium =>
      BucketNone(ys, Other);
      BucketNone(ys, Low);
      Place(h, m, l, o, h', m', l', o', x, 1);
    case Low =>
      BucketNone(ys, Other);
      Place(h, m, l, o, h', m', l', o', x, 2);
    case Other =>
      Place(h, m, l, o, h', m', l', o', x, 3);
  }

  /** Adding `x` at the end of piece `p` of four, the pieces after it being
      empty, appends it to their concatenation. */
  lemma Place<T>(h: seq<T>, m: seq<T>, l: seq<T>, o: seq<T>, h': seq<T>, m': seq<T>, l': seq<T>, o': seq<T>, x: T, p: nat)
    requires p < 4
    requires h' == (if p == 0 then h + [x] else h) && m' == (if p == 1 then m + [x] else m)
    requires l' == (if p == 2 then l + [x] else l) && o' == (if p == 3 then o + [x] else o)
    requires (p < 1 ==> m == []) && (p < 2 ==> l == []) && (p < 3 ==> o == [])
    ensures h' + m' + l' + o' == h + m + l + o + [x]
  {
  }

  /** Items whose ranks are in order, each carrying the rank its label
      stands for, are exactly their buckets laid end to end: the grouped
      view lists the same items in the same order as the flat one. */
  lemma {:induction false} BucketsInRankOrder(xs: seq<Item>)
    requires forall i, j :: 0 <= i < j < |xs| ==> xs[i].rank <= xs[j].rank
    requires forall k :: 0 <= k < |xs| ==> xs[k].rank == Rank(xs[k].level)
    ensures AllBuckets(xs) == xs
  {
    if xs != [] {
      var ys := xs[..|xs| - 1];
      var x := xs[|xs| - 1];
      assert forall k :: 0 <= k < |ys| ==> ys[k] == xs[k];
      BucketsInRankOrder(ys);
      AllBucketsSnoc(ys, x);
      assert xs == ys + [x];
    }
  }

  /** Lines of a concatenation are the concatenated lines. */
  lemma {:induction false} LinesAppend(xs: seq<Item>, ys: seq<Item>, line: Item -> string)
    ensures Lines(xs + ys, line) == Lines(xs, line) + Lines(ys, line)
  {
  }

  /** Every item carries the rank its label stands for. */
  predicate WellRanked(xs: seq<Item>)
  {
    forall k :: 0 <= k < |xs| ==> xs[k].rank == Rank(xs[k].level)
  }

  /** After sorting by priority, the four buckets' lines laid end to end are
      the sorted list's lines: the grouped view drops no item, repeats none
      and keeps the flat order. */
  lemma GroupedInSortedOrder(xs: seq<Item>, line: Item -> string)
    requires WellRanked(xs)
    ensures var s := StableSort(xs, PriorityKey);
      Lines(Bucket(s, High), line) + Lines(Bucket(s, Medium), line) + Lines(Bucket(s, Low), line)
        + Lines(Bucket(s, Other), line) == Lines(s, line)
  {
    var s := StableSort(xs, PriorityKey);
    StableSortSorted(xs, PriorityKey);
    StableSortPermutation(xs, PriorityKey);
    PrioritySortedRanks(s);
    forall k | 0 <= k < |s|
      ensures s[k].rank == Rank(s[k].level)
    {
      assert s[k] in multiset(xs);
    }
    BucketsInRankOrder(s);
    var h, m, l, o := Bucket(s, High), Bucket(s, Medium), Bucket(s, Low), Bucket(s, Other);
    LinesAppend(h, m, line);
    LinesAppend(h + m, l, line);
    LinesAppend(h + m + l, o, line);
  }

  // ---------------------------------------------------------------------
  // The file

  /** `"\n".join(out).rstrip() + "\n"`. */
  function Finish(out: seq<string>): string
  {
    RStrip(Join("\n", out)) + "\n"
  }

  /** The file ends in exactly one newline, with no whitespace before it. */
  lemma FinishEnds(out: seq<string>)
    ensures var f := Finish(out); |f| >= 1 && f[|f| - 1] == '\n' && (|f| == 1 || !IsSpace(f[|f| - 2]))
  {
    var j := Join("\n", out);
    assert RStrip(j) == j[..BackIn(j, |j|, Whitespace)];
  }

  /** The joined lines start with the first line. */
  lemma JoinStarts(out: seq<string>)
    requires out != []
    ensures |out[0]| <= |Join("\n", out)| && Join("\n", out)[..|out[0]|] == out[0]
  {
    if |out| > 1 {
      assert Join("\n", out) == out[0] + ("\n" + Join("\n", out[1..]));
    }
  }

  /** The file starts with the first line, trailing blanks aside, when that
      line is not blank. */
  lemma FinishStarts(out: seq<string>)
    requires out != [] && Strip(out[0]) != []
    ensures StartsWith(Finish(out), RStrip(out[0]))
  {
    var j := Join("\n", out);
    var k := BackIn(j, |j|, Whitespace);
    assert RStrip(j) == j[..k];
    var w := out[0];
    JoinStarts(out);
    var kw := BackIn(w, |w|, Whitespace);
    assert RStrip(w) == w[..kw];
    assert kw > 0;
    assert j[kw - 1] == w[kw - 1] && w[kw - 1] !in Whitespace;
    assert k >= kw;
    assert Finish(out)[..kw] == w[..kw];
  }

  /** The file ends in exactly one newline, with no whitespace before it,
      and starts with the first line, trailing blanks aside, when that line
      is not blank. */
  lemma FinishShape(out: seq<string>)
    ensures var f := Finish(out); |f| >= 1 && f[|f| - 1] == '\n' && (|f| == 1 || !IsSpace(f[|f| - 2]))
    ensures out != [] && Strip(out[0]) != [] ==> StartsWith(Finish(out), RStrip(out[0]))
  {
    FinishEnds(out);
    if out != [] && Strip(out[0]) != [] {
      FinishStarts(out);
    }
  }
}
