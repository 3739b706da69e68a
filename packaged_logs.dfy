/**
 * The log-file side of the packaged CLI, src/team_digest/team_email_digest.py:
 * which entries of a logs directory are daily logs, the date a log's name
 * carries, the inclusive date filter of `list_logs_in_range` and the month
 * window of `list_logs_for_month`.
 *
 * The directory is replaced by the sequence of its entry names, and
 * `date.today()` by a parameter.
 */
module PackagedLogs {
  import opened Wrappers
  import opened Text
  import opened Dates
  import opened Sorting

  /** `Path.glob("notes-*.md")` tested on one entry name; on POSIX the
      pattern is case-sensitive. */
  predicate GlobMatch(name: string)
  {
    |name| >= 9 && StartsWith(name, "notes-") && EndsWith(name, ".md")
  }

  /** `DATE_RX` (`notes-(\d{4}-\d{2}-\d{2})\.md$`, ignoring case) matched
      at `p`: nineteen characters, then the end of the name or a final
      newline, which `$` also accepts. */
  predicate DateRxAt(s: string, p: nat)
  {
    && p + 19 <= |s|
    && Lower(s[p..p + 6]) == "notes-"
    && IsoShaped(s[p + 6..p + 16])
    && Lower(s[p + 16..p + 19]) == ".md"
    && (p + 19 == |s| || (p + 20 == |s| && s[p + 19] == '\n'))
  }

  /** `DATE_RX.search(s).group(1)`, or None when there is no match. The
      match has a fixed length and must reach the end, so it can only sit
      at one of the two places `$` allows. */
  function DateRxSearch(s: string): (r: Option<string>)
    ensures r.Some? ==> IsoShaped(r.value)
  {
    if |s| >= 20 && DateRxAt(s, |s| - 20) then Some(s[|s| - 14..|s| - 4])
    else if |s| >= 19 && DateRxAt(s, |s| - 19) then Some(s[|s| - 13..|s| - 3])
    else None
  }

  /** The search finds a match exactly when the pattern matches somewhere,
      and then returns that match's date group. */
  lemma DateRxSearchMatches(s: string, p: nat)
    ensures DateRxSearch(s).None? ==> !DateRxAt(s, p)
    ensures DateRxAt(s, p) ==> DateRxSearch(s) == Some(s[p + 6..p + 16])
  {
    if DateRxAt(s, p) {
      assert p == |s| - 19 || p == |s| - 20;
      if p == |s| - 19 {
        assert Lower(s[p + 16..p + 19])[2] == 'd';
        assert s[|s| - 1] != '\n';
      }
    }
  }

  /** A name such as `notes-2024-05-06.md` carries its date. */
  lemma DateRxSearchPlain(date: string)
    requires IsoShaped(date)
    ensures DateRxSearch("notes-" + date + ".md") == Some(date)
  {
    var s := "notes-" + date + ".md";
    assert s[0..6] == "notes-" && s[6..16] == date && s[16..19] == ".md";
    assert Lower("notes-") == "notes-" && Lower(".md") == ".md";
    DateRxSearchMatches(s, 0);
  }

  /** What `list_logs_in_range` makes of one entry name. */
  datatype NameDate = NoDate | BadDate | OnDate(date: Date)

  /** No `DATE_RX` match (the entry is skipped), a match whose digits are no
      date (`fromisoformat` raises ValueError), or the date. */
  function DateOf(name: string): (r: NameDate)
    ensures r.OnDate? ==> Valid(r.date)
  {
    match DateRxSearch(name)
    case None => NoDate
    case Some(g) =>
      match ParseIso(g)
      case None => BadDate
      case Some(d) => OnDate(d)
  }

  /** `start <= d <= end`. */
  predicate InWindow(d: Date, start: Date, end: Date)
  {
    NotAfter(start, d) && NotAfter(d, end)
  }

  /** The names `list_logs_in_range` returns: listed by the glob, dated,
      and dated inside the window. */
  predicate Wanted(name: string, start: Date, end: Date)
  {
    GlobMatch(name) && DateOf(name).OnDate? && InWindow(DateOf(name).date, start, end)
  }

  /** The `(date, path)` pairs the loop of `list_logs_in_range` collects
      from `ns`, or the ValueError that stops it. */
  function Scanned(ns: seq<string>, start: Date, end: Date): Result<seq<(Date, string)>>
    decreases |ns|
  {
    if ns == [] then Ok([])
    else
      match Scanned(ns[..|ns| - 1], start, end)
      case Err(e) => Err(e)
      case Ok(out) =>
        var n := ns[|ns| - 1];
        match DateOf(n)
        case NoDate => Ok(out)
        case BadDate => Err("ValueError")
        case OnDate(d) => if InWindow(d, start, end) then Ok(out + [(d, n)]) else Ok(out)
  }

  /** The sort key of `sorted(...)` on the paths of one directory. */
  function ByName(name: string): Key { [Str(name)] }

  /** The sort key `lambda x: x[0]`. */
  function ByDate(e: (Date, string)): Key { [Num(DayKey(e.0))] }

  /** The path of a `(date, path)` pair. */
  function NameOf(e: (Date, string)): string { e.1 }

  /** The directory listing `list_logs_in_range` walks: the glob's entries,
      sorted by name. */
  function Listed(names: seq<string>): seq<string>
  {
    Filter(StableSort(names, ByName), GlobMatch)
  }

  /** What `list_logs_in_range` returns for a directory holding `names`. */
  function LogsInRange(names: seq<string>, start: Date, end: Date): Result<seq<string>>
  {
    match Scanned(Listed(names), start, end)
    case Err(e) => Err(e)
    case Ok(out) => Ok(Map(StableSort(out, ByDate), NameOf))
  }

  /** `list_logs_in_range`. */
  method ListLogsInRange(names: seq<string>, start: Date, end: Date) returns (r: Result<seq<string>>)
    ensures r == LogsInRange(names, start, end)
  {
    var listed := Listed(names);
    var out: seq<(Date, string)> := [];
    var i := 0;
    while i < |listed|
      invariant 0 <= i <= |listed|
      invariant Scanned(listed[..i], start, end) == Ok(out)
    {
      var n := listed[i];
      ScannedNext(listed, i, start, end);
      var dated := DateOf(n);
      if dated.BadDate? {
        ScannedErrStays(listed, i + 1, start, end);
        return Err("ValueError");
      }
      if dated.OnDate? && InWindow(dated.date, start, end) {
        out := out + [(dated.date, n)];
      }
      i := i + 1;
    }
    assert listed[..i] == listed;
    r := Ok(Map(StableSort(out, ByDate), NameOf));
  }

  /** One more name of the listing, after a scan that has not raised. */
  lemma ScannedNext(ns: seq<string>, i: nat, start: Date, end: Date)
    requires i < |ns| && Scanned(ns[..i], start, end).Ok?
    ensures var out, n := Scanned(ns[..i], start, end).value, ns[i];
      && (DateOf(n).BadDate? ==> Scanned(ns[..i + 1], start, end).Err?)
      && (DateOf(n).NoDate? ==> Scanned(ns[..i + 1], start, end) == Ok(out))
      && (DateOf(n).OnDate? && InWindow(DateOf(n).date, start, end) ==>
            Scanned(ns[..i + 1], start, end) == Ok(out + [(DateOf(n).date, n)]))
      && (DateOf(n).OnDate? && !InWindow(DateOf(n).date, start, end) ==>
            Scanned(ns[..i + 1], start, end) == Ok(out))
  {
    var seen := ns[..i + 1];
    assert seen[..|seen| - 1] == ns[..i] && seen[|seen| - 1] == ns[i];
  }

  /** Once the loop has raised, the rest of the listing does not matter. */
  lemma {:induction false} ScannedErrStays(ns: seq<string>, i: nat, start: Date, end: Date)
    requires i <= |ns| && Scanned(ns[..i], start, end).Err?
    ensures Scanned(ns, start, end) == Err("ValueError")
    decreases |ns| - i
  {
    if i < |ns| {
      assert ns[..i + 1][..i] == ns[..i];
      ScannedErrStays(ns, i + 1, start, end);
    } else {
      assert ns[..i] == ns;
      ScannedErrIsValueError(ns, start, end);
    }
  }

  lemma {:induction false} ScannedErrIsValueError(ns: seq<string>, start: Date, end: Date)
    requires Scanned(ns, start, end).Err?
    ensures Scanned(ns, start, end) == Err("ValueError")
    decreases |ns|
  {
    if ns != [] && Scanned(ns[..|ns| - 1], start, end).Err? {
      ScannedErrIsValueError(ns[..|ns| - 1], start, end);
    }
  }

  // ---------------------------------------------------------------------
  // What the scan promises

  /** The scan raises exactly when some name carries a match that is not a
      date; otherwise it keeps, in order, the dated names inside the
      window, each with its date. */
  lemma {:induction false} ScannedIs(ns: seq<string>, start: Date, end: Date)
    ensures Scanned(ns, start, end).Err? <==> exists k :: 0 <= k < |ns| && DateOf(ns[k]).BadDate?
    ensures Scanned(ns, start, end).Ok? ==>
      var out := Scanned(ns, start, end).value;
      && Map(out, NameOf) == Filter(ns, n => DateOf(n).OnDate? && InWindow(DateOf(n).date, start, end))
      && forall k :: 0 <= k < |out| ==> DateOf(out[k].1) == OnDate(out[k].0)
    decreases |ns|
  {
    var p := n => DateOf(n).OnDate? && InWindow(DateOf(n).date, start, end);
    if ns != [] {
      var init := ns[..|ns| - 1];
      var n := ns[|ns| - 1];
      ScannedIs(init, start, end);
      assert ns == init + [n];
      FilterAppend(init, [n], p);
      assert forall k :: 0 <= k < |init| ==> init[k] == ns[k];
      if Scanned(init, start, end).Ok? {
        var out := Scanned(init, start, end).value;
        if DateOf(n).OnDate? && InWindow(DateOf(n).date, start, end) {
          assert Map(out + [(DateOf(n).date, n)], NameOf) == Map(out, NameOf) + [n];
        }
      }
    }
  }

  /** Filtering twice is filtering by both conditions. */
  lemma {:induction false} FilterFilter<T>(xs: seq<T>, p: T -> bool, q: T -> bool, pq: T -> bool)
    requires forall x :: pq(x) == (p(x) && q(x))
    ensures Filter(Filter(xs, p), q) == Filter(xs, pq)
  {
    if xs != [] {
      FilterFilter(xs[1..], p, q, pq);
      var f := Filter(xs, p);
      if p(xs[0]) {
        assert f == [xs[0]] + Filter(xs[1..], p);
        assert f[0] == xs[0] && f[1..] == Filter(xs[1..], p);
      } else {
        assert f == Filter(xs[1..], p);
      }
    }
  }

  /** `list_logs_in_range` raises ValueError exactly when a listed name
      matches `DATE_RX` with digits that are no date, even one outside the
      window. */
  lemma LogsInRangeRaises(names: seq<string>, start: Date, end: Date)
    ensures LogsInRange(names, start, end).Err? <==>
      exists k :: 0 <= k < |names| && GlobMatch(names[k]) && DateOf(names[k]).BadDate?
  {
    var listed := Listed(names);
    var sorted := StableSort(names, ByName);
    ScannedIs(listed, start, end);
    StableSortPermutation(names, ByName);
    if exists k :: 0 <= k < |names| && GlobMatch(names[k]) && DateOf(names[k]).BadDate? {
      var k :| 0 <= k < |names| && GlobMatch(names[k]) && DateOf(names[k]).BadDate?;
      assert names[k] in multiset(sorted);
      FilterMembers(sorted, GlobMatch, names[k]);
      var j :| 0 <= j < |listed| && listed[j] == names[k];
    }
    if exists j :: 0 <= j < |listed| && DateOf(listed[j]).BadDate? {
      var j :| 0 <= j < |listed| && DateOf(listed[j]).BadDate?;
      FilterMembers(sorted, GlobMatch, listed[j]);
      assert listed[j] in multiset(names);
      var k :| 0 <= k < |names| && names[k] == listed[j];
    }
  }

  /** When it returns, `list_logs_in_range` lists each wanted name as often
      as the directory holds it and nothing else, in ascending date order. */
  lemma LogsInRangeOk(names: seq<string>, start: Date, end: Date, r: seq<string>)
    requires LogsInRange(names, start, end) == Ok(r)
    ensures && multiset(r) == multiset(Filter(names, n => Wanted(n, start, end)))
      && (forall k :: 0 <= k < |r| ==> Wanted(r[k], start, end))
      && forall i, j :: 0 <= i < j < |r| ==> DatedInOrder(r[i], r[j])
  {
    var wanted := n => Wanted(n, start, end);
    LogsInRangeNames(names, start, end, r);
    forall k | 0 <= k < |r| ensures Wanted(r[k], start, end) {
      assert r[k] in multiset(Filter(names, wanted));
      FilterMembers(names, wanted, r[k]);
    }
    LogsInRangeOrdered(names, start, end, r);
  }

  /** The names returned are the wanted names of the directory. */
  lemma LogsInRangeNames(names: seq<string>, start: Date, end: Date, r: seq<string>)
    requires LogsInRange(names, start, end) == Ok(r)
    ensures multiset(r) == multiset(Filter(names, n => Wanted(n, start, end)))
  {
    var listed := Listed(names);
    var sorted := StableSort(names, ByName);
    var inWin := n => DateOf(n).OnDate? && InWindow(DateOf(n).date, start, end);
    var wanted := n => Wanted(n, start, end);
    ScannedIs(listed, start, end);
    var out := Scanned(listed, start, end).value;
    var s := StableSort(out, ByDate);
    StableSortPermutation(out, ByDate);
    MapPermutation(s, out, NameOf);
    FilterFilter(sorted, GlobMatch, inWin, wanted);
    StableSortPermutation(names, ByName);
    FilterPermutation(sorted, names, wanted);
  }

  /** The names returned are in ascending date order. */
  lemma LogsInRangeOrdered(names: seq<string>, start: Date, end: Date, r: seq<string>)
    requires LogsInRange(names, start, end) == Ok(r)
    ensures forall i, j :: 0 <= i < j < |r| ==> DatedInOrder(r[i], r[j])
  {
    var listed := Listed(names);
    ScannedIs(listed, start, end);
    var out := Scanned(listed, start, end).value;
    var sorted := StableSort(out, ByDate);
    StableSortPermutation(out, ByDate);
    StableSortSorted(out, ByDate);
    SortedScanOrdered(out, sorted, r);
  }

  /** Both names carry dates, the first no later than the second. */
  predicate DatedInOrder(a: string, b: string)
  {
    DateOf(a).OnDate? && DateOf(b).OnDate? && NotAfter(DateOf(a).date, DateOf(b).date)
  }

  /** The names of a date-sorted permutation of the scan are in date order. */
  lemma SortedScanOrdered(out: seq<(Date, string)>, s: seq<(Date, string)>, r: seq<string>)
    requires forall k :: 0 <= k < |out| ==> DateOf(out[k].1) == OnDate(out[k].0)
    requires multiset(s) == multiset(out) && SortedBy(s, ByDate)
    requires r == Map(s, NameOf)
    ensures forall i, j :: 0 <= i < j < |r| ==> DatedInOrder(r[i], r[j])
  {
    forall i, j | 0 <= i < j < |r| ensures DatedInOrder(r[i], r[j]) {
      OrderedPair(out, s, i, j);
    }
  }

  /** Two entries of the date-sorted scan are in date order. */
  lemma OrderedPair(out: seq<(Date, string)>, s: seq<(Date, string)>, i: nat, j: nat)
    requires forall k :: 0 <= k < |out| ==> DateOf(out[k].1) == OnDate(out[k].0)
    requires multiset(s) == multiset(out) && SortedBy(s, ByDate)
    requires i < j < |s|
    ensures DatedInOrder(s[i].1, s[j].1)
  {
    assert s[i] in multiset(out) && s[j] in multiset(out);
    DatedEntry(out, s[i]);
    DatedEntry(out, s[j]);
    assert !KeyLess(ByDate(s[j]), ByDate(s[i]));
  }

  /** An entry of the scan carries its name's date. */
  lemma DatedEntry(out: seq<(Date, string)>, e: (Date, string))
    requires forall k :: 0 <= k < |out| ==> DateOf(out[k].1) == OnDate(out[k].0)
    requires e in multiset(out)
    ensures DateOf(e.1) == OnDate(e.0)
  {
    var k :| 0 <= k < |out| && out[k] == e;
  }

  // ---------------------------------------------------------------------
  // list_logs_for_month

  /** `date(year, month + 1, 1) - timedelta(days=1)`, or the 31st for
      December. */
  function MonthEnd(year: int, month: int): (r: Date)
    requires 1 <= year <= 9999 && 1 <= month <= 12
    ensures Valid(r)
  {
    if month == 12 then Date(year, 12, 31)
    else
      var first := Date(year, month + 1, 1);
      assert Ordinal(first) > 1 by { EarlierOrdinal(Date(year, month, 1), first); }
      AddDays(first, -1).value
  }

  /** The day before the first of the next month is the last day of the
      month. */
  lemma MonthEndIsLastDay(year: int, month: int)
    requires 1 <= year <= 9999 && 1 <= month <= 12
    ensures MonthEnd(year, month) == Date(year, month, DaysInMonth(year, month))
  {
    if month < 12 {
      var last := Date(year, month, DaysInMonth(year, month));
      var first := Date(year, month + 1, 1);
      LastDayOrdinal(last, first);
      DayBeforeFirst(last, first, MonthEnd(year, month));
    }
  }

  /** The day before `first`, when `first` follows `last`, is `last`. */
  lemma DayBeforeFirst(last: Date, first: Date, prev: Date)
    requires Valid(last) && Valid(first) && Ordinal(first) == Ordinal(last) + 1
    requires AddDays(first, -1) == Some(prev)
    ensures prev == last
  {
    assert Valid(prev) && Ordinal(prev) == Ordinal(last);
    NotAfterOrdinal(prev, last);
    NotAfterOrdinal(last, prev);
    NotAfterLexicographic(prev, last);
  }

  /** The next day of the last day of a month other than December is the
      first of the next month. */
  lemma LastDayOrdinal(last: Date, first: Date)
    requires 1 <= last.year <= 9999 && 1 <= last.month < 12
    requires last.day == DaysInMonth(last.year, last.month)
    requires first == Date(last.year, last.month + 1, 1)
    ensures Valid(last) && Valid(first) && Ordinal(first) == Ordinal(last) + 1
  {
    assert NextDay(last) == first;
    NextDayOrdinal(last);
  }

  /** The window of `list_logs_for_month`: month to date when
      `latest_with_data` is set and today lies in the month, else the whole
      month; ValueError from `date(year, month, 1)` for a month outside
      1..12 or a year outside 1..9999. */
  function MonthWindow(year: int, month: int, latestWithData: bool, today: Date): Result<(Date, Date)>
    requires Valid(today)
  {
    if latestWithData && today.year == year && today.month == month then Ok((Date(year, month, 1), today))
    else if !(1 <= year <= 9999 && 1 <= month <= 12) then Err("ValueError")
    else Ok((Date(year, month, 1), MonthEnd(year, month)))
  }

  /** The window starts on the 1st of the month and ends in the same
      month, on its last day or, month to date, on today; it is never
      empty. */
  lemma MonthWindowShape(year: int, month: int, latestWithData: bool, today: Date)
    requires Valid(today)
    ensures MonthWindow(year, month, latestWithData, today).Ok? <==> 1 <= year <= 9999 && 1 <= month <= 12
    ensures MonthWindow(year, month, latestWithData, today).Ok? ==>
      var (start, end) := MonthWindow(year, month, latestWithData, today).value;
      && start == Date(year, month, 1) && Valid(start) && Valid(end)
      && end.year == year && end.month == month && NotAfter(start, end)
      && (if latestWithData && today.year == year && today.month == month then end == today
          else end.day == DaysInMonth(year, month))
  {
    if 1 <= year <= 9999 && 1 <= month <= 12 {
      MonthEndIsLastDay(year, month);
    }
  }

  /** `list_logs_for_month`: the window and the logs inside it. */
  function LogsForMonth(names: seq<string>, year: int, month: int, latestWithData: bool, today: Date)
    : Result<(Date, Date, seq<string>)>
    requires Valid(today)
  {
    match MonthWindow(year, month, latestWithData, today)
    case Err(e) => Err(e)
    case Ok((start, end)) =>
      match LogsInRange(names, start, end)
      case Err(e) => Err(e)
      case Ok(paths) => Ok((start, end, paths))
  }
}
