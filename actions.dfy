/** The action items of one day's log, as both digest scripts read them:
    the bullets of the Actions section, or, when it has none but some line
    carries a priority tag, every non-blank line; each becomes a
    `(rank, label, who, text)` item. */
module ActionItems {
  import opened Text
  import opened LogText
  import opened OwnerNames
  import opened Sorting

  /** The four labels `detect_priority` gives. */
  datatype Level = High | Medium | Low | Other

  /** The label as the scripts print it. */
  function Label(l: Level): string
  {
    match l
    case High => "high"
    case Medium => "medium"
    case Low => "low"
    case Other => "other"
  }

  /** The level a label names; any other label is `other`. */
  function LevelNamed(word: string): (l: Level)
    ensures word in ["high", "medium", "low", "other"] ==> Label(l) == word
  {
    if word == "high" then High else if word == "medium" then Medium else if word == "low" then Low else Other
  }

  /** `PRIORITY_RANK.get(label, 3)` for a level. */
  function Rank(l: Level): int
  {
    match l
    case High => 0
    case Medium => 1
    case Low => 2
    case Other => 3
  }

  /** The buckets, in output order. */
  const Levels: seq<Level> := [High, Medium, Low, Other]

  /** `(rank, label, who, text)`. */
  datatype Item = Item(rank: int, level: Level, who: string, text: string)

  /** `[L.strip() for L in lines if L.strip()]`. */
  function NonBlank(lines: seq<string>): (r: seq<string>)
    ensures |r| <= |lines|
    ensures forall k :: 0 <= k < |r| ==> r[k] != [] && Strip(r[k]) == r[k]
  {
    if lines == [] then []
    else
      var last := lines[|lines| - 1];
      StripIdempotent(last);
      NonBlank(lines[..|lines| - 1]) + (if Strip(last) != [] then [Strip(last)] else [])
  }

  /** Some line carries a priority tag anywhere. */
  predicate AnyTagged(lines: seq<string>)
  {
    exists k :: 0 <= k < |lines| && FirstTag(lines[k], 0).Some?
  }

  /** The lines an Actions block contributes. */
  function ActionLines(block: string): seq<string>
  {
    var bullets := BulletsOf(SplitLines(block));
    if bullets == [] && block != [] && AnyTagged(NonBlank(SplitLines(block))) then NonBlank(SplitLines(block))
    else bullets
  }

  /** Bullets win; the plain-line fallback needs a tag and no bullets; every
      contributed line is non-blank and stripped. */
  lemma ActionLinesShape(block: string)
    ensures var r := ActionLines(block);
      && (BulletsOf(SplitLines(block)) != [] ==> r == BulletsOf(SplitLines(block)))
      && (r != [] && BulletsOf(SplitLines(block)) == [] ==> AnyTagged(r))
      && forall k :: 0 <= k < |r| ==> r[k] != [] && Strip(r[k]) == r[k]
  {
    BulletsStripped(SplitLines(block));
  }

  /** One line as an item: its priority, its cleaned text and the
      lower-cased owner found in that text. */
  function MakeItem(line: string): (it: Item)
    ensures Label(it.level) == DetectPriority(line).0 && it.rank == Rank(it.level)
    ensures Lower(it.who) == it.who
  {
    DetectPriorityConsistent(line);
    var (word, rank) := DetectPriority(line);
    var text := CleanItemText(line);
    LowerIdempotent(ExtractName(text));
    Item(rank, LevelNamed(word), Lower(ExtractName(text)), text)
  }

  /** `[make(line) for line in lines]`. */
  function MakeItems(lines: seq<string>): (r: seq<Item>)
    ensures |r| == |lines|
    ensures forall k :: 0 <= k < |r| ==> r[k] == MakeItem(lines[k])
  {
    seq(|lines|, k requires 0 <= k < |lines| => MakeItem(lines[k]))
  }

  /** One more line, one more item. */
  lemma MakeItemsSnoc(lines: seq<string>, i: int)
    requires 0 <= i < |lines|
    ensures MakeItems(lines[..i + 1]) == MakeItems(lines[..i]) + [MakeItem(lines[i])]
  {
    TakeSnoc(lines, i);
  }

  /** The Actions block's lines: its bullets, else the tagged fallback. */
  method SelectLines(block: string) returns (lines: seq<string>)
    ensures lines == ActionLines(block)
  {
    lines := CollectBullets(block);
    if lines == [] && block != [] {
      var plain := NonBlank(SplitLines(block));
      if AnyTagged(plain) {
        lines := plain;
      }
    }
  }

  /** The per-day part of both scripts: each selected line becomes an
      item. */
  method DayActions(block: string) returns (items: seq<Item>)
    ensures items == MakeItems(ActionLines(block))
  {
    var lines := SelectLines(block);
    items := [];
    var i := 0;
    while i < |lines|
      invariant 0 <= i <= |lines|
      invariant items == MakeItems(lines[..i])
    {
      MakeItemsSnoc(lines, i);
      items := items + [MakeItem(lines[i])];
      i := i + 1;
    }
    assert lines[..|lines|] == lines;
  }

  // ---------------------------------------------------------------------
  // Sort keys

  /** `(rank, who, text.lower())`: priority, then name, then text. */
  function PriorityKey(it: Item): Key
  {
    [Num(it.rank), Str(it.who), Str(Lower(it.text))]
  }

  /** `(who, rank, text.lower())`: name, then priority, then text. */
  function NameKey(it: Item): Key
  {
    [Str(it.who), Num(it.rank), Str(Lower(it.text))]
  }

  /** Sorting by a key that starts with the rank puts ranks in order. */
  lemma PrioritySortedRanks(xs: seq<Item>)
    requires SortedBy(xs, PriorityKey)
    ensures forall i, j :: 0 <= i < j < |xs| ==> xs[i].rank <= xs[j].rank
  {
    forall i, j | 0 <= i < j < |xs|
      ensures xs[i].rank <= xs[j].rank
    {
      assert !KeyLess(PriorityKey(xs[j]), PriorityKey(xs[i]));
    }
  }
}
