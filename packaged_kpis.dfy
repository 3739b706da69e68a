/**
 * The figures `render_md_range` of src/team_digest/team_email_digest.py
 * prints above the sections: the `Counter` of priorities summed over the
 * days, the `Counter` of owners, and the owner breakdown, a
 * `defaultdict(Counter)` ranked by its high, medium and low counts.
 *
 * The counting is stated once for any sequence and any owner and priority
 * functions, then applied to the merged actions with `infer_owner` and
 * `infer_priority`.
 */
module PackagedKpis {
  import opened Wrappers
  import opened Text
  import opened Sections
  import opened Sorting
  import Dates
  import opened PackagedParse

  // ---------------------------------------------------------------------
  // The merged actions

  /** Every day's actions, in day order. */
  function AllActions(docs: seq<DayDoc>): seq<string>
  {
    if docs == [] then [] else AllActions(docs[..|docs| - 1]) + docs[|docs| - 1].actions
  }

  /** They are the Actions list `aggregate_sections` builds. */
  lemma {:induction false} AllActionsAggregated(docs: seq<DayDoc>)
    ensures AllActions(docs) == AggLines(docs, Actions)
  {
    if docs != [] {
      AllActionsAggregated(docs[..|docs| - 1]);
    }
  }

  /** `AllActions(docs[..i + 1])` is `AllActions(docs[..i])` and day `i`. */
  lemma AllActionsSnoc(docs: seq<DayDoc>, i: nat)
    requires i < |docs|
    ensures AllActions(docs[..i + 1]) == AllActions(docs[..i]) + docs[i].actions
  {
    assert docs[..i + 1][..i] == docs[..i];
  }

  // ---------------------------------------------------------------------
  // totals.update(d.counts_by_prio) for d in day_docs

  /** `Counter` addition. */
  function AddCounts(a: Counts, b: Counts): (r: Counts)
    ensures forall p :: CountOf(r, p) == CountOf(a, p) + CountOf(b, p)
    ensures Total(r) == Total(a) + Total(b)
  {
    Counts(a.high + b.high, a.medium + b.medium, a.low + b.low)
  }

  /** `totals` after the first loop of the KPI block. */
  function SumCounts(docs: seq<DayDoc>): Counts
  {
    if docs == [] then Counts(0, 0, 0) else AddCounts(SumCounts(docs[..|docs| - 1]), docs[|docs| - 1].counts)
  }

  /** The KPI loop `for d in day_docs: totals.update(d.counts_by_prio)`. */
  method SumTotals(docs: seq<DayDoc>) returns (totals: Counts)
    ensures totals == SumCounts(docs)
  {
    totals := Counts(0, 0, 0);
    var i := 0;
    while i < |docs|
      invariant 0 <= i <= |docs|
      invariant totals == SumCounts(docs[..i])
    {
      assert docs[..i + 1][..i] == docs[..i];
      totals := AddCounts(totals, docs[i].counts);
      i := i + 1;
    }
    assert docs[..i] == docs;
  }

  /** Every day's counts are the `Counter` of its own actions, as
      `parse_day_doc` builds them. */
  predicate WellCounted(docs: seq<DayDoc>)
  {
    forall k :: 0 <= k < |docs| ==> docs[k].counts == Tally(docs[k].actions)
  }

  /** Days read by `parse_day_doc` are well counted. */
  lemma ParsedWellCounted(names: seq<string>, texts: seq<string>, docs: seq<DayDoc>)
    requires |names| == |texts| == |docs|
    requires forall k :: 0 <= k < |docs| ==> DayDocOf(names[k], texts[k]) == Ok(docs[k])
    ensures WellCounted(docs)
  {
    forall k | 0 <= k < |docs| ensures docs[k].counts == Tally(docs[k].actions) {
      assert DayDocOf(names[k], texts[k]) == Ok(docs[k]);
    }
  }

  /** Filing a concatenation files each part. */
  lemma BucketByAppend<T>(xs: seq<T>, ys: seq<T>, f: T -> Priority, p: Priority)
    ensures BucketBy(xs + ys, f, p) == BucketBy(xs, f, p) + BucketBy(ys, f, p)
  {
    FilterAppend(xs, ys, x => f(x) == p);
  }

  /** With well-counted days, each KPI priority count is the number of
      merged actions of that priority, and the KPI total is the number of
      actions the counts line reports. */
  lemma {:induction false} SumCountsActions(docs: seq<DayDoc>)
    requires WellCounted(docs)
    ensures forall p :: CountOf(SumCounts(docs), p) == |Bucket(AllActions(docs), p)|
    ensures Total(SumCounts(docs)) == |AllActions(docs)|
  {
    if docs != [] {
      var n := |docs| - 1;
      var init, d := docs[..n], docs[n];
      WellCountedInit(docs);
      SumCountsActions(init);
      DayCounts(docs);
      forall p ensures CountOf(SumCounts(docs), p) == |Bucket(AllActions(docs), p)| {
        BucketByAppend(AllActions(init), d.actions, InferPriority, p);
      }
    }
  }

  /** The days before the last are well counted too. */
  lemma WellCountedInit(docs: seq<DayDoc>)
    requires docs != [] && WellCounted(docs)
    ensures WellCounted(docs[..|docs| - 1])
  {
    var init := docs[..|docs| - 1];
    forall k | 0 <= k < |init| ensures init[k].counts == Tally(init[k].actions) {
      assert init[k] == docs[k];
    }
  }

  /** The last day's counts, priority by priority. */
  lemma DayCounts(docs: seq<DayDoc>)
    requires docs != [] && WellCounted(docs)
    ensures var d := docs[|docs| - 1];
      (forall p :: CountOf(d.counts, p) == |Bucket(d.actions, p)|) && Total(d.counts) == |d.actions|
  {
    TallyIsBuckets(docs[|docs| - 1].actions);
  }

  // ---------------------------------------------------------------------
  // owners[infer_owner(a)] += 1 for every action

  /** A `Counter` of `f` over `xs`. */
  function TallyBy<T>(xs: seq<T>, f: T -> string): map<string, nat>
  {
    if xs == [] then map[]
    else
      var m := TallyBy(xs[..|xs| - 1], f);
      var o := f(xs[|xs| - 1]);
      m[o := (if o in m then m[o] else 0) + 1]
  }

  /** The values `f` takes on `xs`. */
  ghost function Image<T>(xs: seq<T>, f: T -> string): set<string>
  {
    set x | x in xs :: f(x)
  }

  /** The `Counter` has a positive count for exactly the values `f` takes. */
  lemma {:induction false} TallyByKeys<T>(xs: seq<T>, f: T -> string)
    ensures TallyBy(xs, f).Keys == Image(xs, f)
    ensures forall o :: o in TallyBy(xs, f) ==> TallyBy(xs, f)[o] > 0
  {
    if xs != [] {
      var init, x := xs[..|xs| - 1], xs[|xs| - 1];
      TallyByKeys(init, f);
      ImageSnoc(xs, f);
    }
  }

  /** One more item adds its value to the image. */
  lemma ImageSnoc<T>(xs: seq<T>, f: T -> string)
    requires xs != []
    ensures Image(xs, f) == Image(xs[..|xs| - 1], f) + {f(xs[|xs| - 1])}
  {
    var init := xs[..|xs| - 1];
    assert xs == init + [xs[|xs| - 1]];
    forall o | o in Image(xs, f) ensures o in Image(init, f) + {f(xs[|xs| - 1])} {
      var x :| x in xs && f(x) == o;
      if x != xs[|xs| - 1] {
        assert x in init;
      }
    }
  }

  /** `len([o for o, c in owners.items() if c > 0])`. */
  function Positive(m: map<string, nat>): nat
  {
    |set o | o in m && m[o] > 0|
  }

  /** The owners Counter of the merged actions. */
  function OwnerTally(docs: seq<DayDoc>): map<string, nat>
  {
    TallyBy(AllActions(docs), InferOwner)
  }

  /** The Owners KPI is the number of distinct owners `infer_owner` finds
      among the merged actions. */
  lemma OwnersKpi(docs: seq<DayDoc>)
    ensures Positive(OwnerTally(docs)) == |Image(AllActions(docs), InferOwner)|
  {
    var m := OwnerTally(docs);
    TallyByKeys(AllActions(docs), InferOwner);
    assert (set o | o in m && m[o] > 0) == m.Keys;
  }

  /** `(xs + ys[..j + 1])` is `(xs + ys[..j])` and one more item. */
  lemma PrefixSnoc<T>(xs: seq<T>, ys: seq<T>, j: nat)
    requires j < |ys|
    ensures var s := xs + ys[..j + 1]; s != [] && s[..|s| - 1] == xs + ys[..j] && s[|s| - 1] == ys[j]
  {
    var s := xs + ys[..j + 1];
    assert s[..|s| - 1] == xs + ys[..j];
  }

  /** After a day's actions, the walk has covered one more day. */
  lemma DayDone(docs: seq<DayDoc>, i: nat)
    requires i < |docs|
    ensures AllActions(docs[..i]) + docs[i].actions[..|docs[i].actions|] == AllActions(docs[..i + 1])
  {
    AllActionsSnoc(docs, i);
    assert docs[i].actions[..|docs[i].actions|] == docs[i].actions;
  }

  /** One more action counted. */
  lemma TallyByStep<T>(before: seq<T>, acts: seq<T>, j: nat, next: nat, f: T -> string, m: map<string, nat>)
    requires j < |acts| && next == j + 1 && m == TallyBy(before + acts[..j], f)
    ensures var o := f(acts[j]); m[o := (if o in m then m[o] else 0) + 1] == TallyBy(before + acts[..next], f)
  {
    PrefixSnoc(before, acts, j);
  }

  /** The KPI loop `for d in day_docs: for a in d.actions:
      owners[infer_owner(a)] += 1`. */
  method CountOwners(docs: seq<DayDoc>) returns (owners: map<string, nat>)
    ensures owners == OwnerTally(docs)
  {
    owners := map[];
    var i := 0;
    while i < |docs|
      invariant 0 <= i <= |docs|
      invariant owners == TallyBy(AllActions(docs[..i]), InferOwner)
    {
      var acts := docs[i].actions;
      ghost var before := AllActions(docs[..i]);
      assert before + acts[..0] == before;
      var j := 0;
      while j < |acts|
        invariant 0 <= j <= |acts|
        invariant owners == TallyBy(before + acts[..j], InferOwner)
      {
        var o := InferOwner(acts[j]);
        var next := j + 1;
        TallyByStep(before, acts, j, next, InferOwner, owners);
        owners := owners[o := (if o in owners then owners[o] else 0) + 1];
        j := next;
      }
      DayDone(docs, i);
      i := i + 1;
    }
    assert docs[..i] == docs;
  }

  // ---------------------------------------------------------------------
  // ob[infer_owner(a)][infer_priority(a)] += 1, the owner breakdown

  /** One owner's entry of the breakdown. */
  datatype Row = Row(owner: string, counts: Counts)

  /** Where `o`'s entry is, if it has one. */
  function RowOf(rows: seq<Row>, o: string): (r: Option<nat>)
    ensures r.Some? ==> r.value < |rows| && rows[r.value].owner == o
    ensures r.None? ==> forall k :: 0 <= k < |rows| ==> rows[k].owner != o
  {
    if rows == [] then None
    else if rows[|rows| - 1].owner == o then Some(|rows| - 1)
    else RowOf(rows[..|rows| - 1], o)
  }

  /** `ob[o][p] += 1`: the entry of `o` is bumped where it stands, or a new
      entry goes at the end, since a dict keeps insertion order. */
  function AddTo(rows: seq<Row>, o: string, p: Priority): seq<Row>
  {
    match RowOf(rows, o)
    case Some(k) => rows[k := Row(o, Bump(rows[k].counts, p))]
    case None => rows + [Row(o, Bump(Counts(0, 0, 0), p))]
  }

  /** The breakdown of `xs` by `owner` and `prio`. */
  function BreakdownBy<T>(xs: seq<T>, owner: T -> string, prio: T -> Priority): seq<Row>
  {
    if xs == [] then []
    else AddTo(BreakdownBy(xs[..|xs| - 1], owner, prio), owner(xs[|xs| - 1]), prio(xs[|xs| - 1]))
  }

  /** The owners of the entries, in order. */
  function RowOwners(rows: seq<Row>): (r: seq<string>)
    ensures |r| == |rows| && forall k :: 0 <= k < |rows| ==> r[k] == rows[k].owner
  {
    if rows == [] then [] else RowOwners(rows[..|rows| - 1]) + [rows[|rows| - 1].owner]
  }

  /** The values of `owner` over `xs`, each once, in order of first
      appearance. */
  function FirstSeen<T>(xs: seq<T>, owner: T -> string): seq<string>
  {
    if xs == [] then []
    else
      var d := FirstSeen(xs[..|xs| - 1], owner);
      var o := owner(xs[|xs| - 1]);
      if o in d then d else d + [o]
  }

  /** No value twice. */
  predicate Distinct(s: seq<string>)
  {
    forall i, j :: 0 <= i < j < |s| ==> s[i] != s[j]
  }

  /** `FirstSeen` lists every value of `owner` over `xs`, each once. */
  lemma {:induction false} FirstSeenShape<T>(xs: seq<T>, owner: T -> string)
    ensures Distinct(FirstSeen(xs, owner))
    ensures forall o :: o in FirstSeen(xs, owner) <==> o in Image(xs, owner)
  {
    if xs != [] {
      FirstSeenShape(xs[..|xs| - 1], owner);
      ImageSnoc(xs, owner);
    }
  }

  /** The entries `xs[..k]` and `y` of `ys`: the items of `owner` `o`. */
  function OwnedBy<T>(xs: seq<T>, owner: T -> string, o: string): seq<T>
  {
    Filter(xs, x => owner(x) == o)
  }

  /** One more item joins its owner's items. */
  lemma OwnedBySnoc<T>(xs: seq<T>, owner: T -> string, o: string)
    requires xs != []
    ensures owner(xs[|xs| - 1]) == o ==> OwnedBy(xs, owner, o) == OwnedBy(xs[..|xs| - 1], owner, o) + [xs[|xs| - 1]]
    ensures owner(xs[|xs| - 1]) != o ==> OwnedBy(xs, owner, o) == OwnedBy(xs[..|xs| - 1], owner, o)
  {
    var init, x := xs[..|xs| - 1], xs[|xs| - 1];
    assert xs == init + [x];
    FilterAppend(init, [x], y => owner(y) == o);
    assert [x][1..] == [];
    if owner(x) != o {
      assert OwnedBy(init, owner, o) + [] == OwnedBy(init, owner, o);
    }
  }

  /** The `Counter` of `prio` over `xs`. */
  function TallyPrio<T>(xs: seq<T>, prio: T -> Priority): Counts
  {
    if xs == [] then Counts(0, 0, 0) else Bump(TallyPrio(xs[..|xs| - 1], prio), prio(xs[|xs| - 1]))
  }

  /** Every entry counts its owner's items by priority. */
  predicate CountsOwned<T>(rows: seq<Row>, xs: seq<T>, owner: T -> string, prio: T -> Priority)
  {
    forall k :: 0 <= k < |rows| ==> rows[k].counts == TallyPrio(OwnedBy(xs, owner, rows[k].owner), prio)
  }

  /** Bumping an entry keeps the owners in place. */
  lemma OwnersUpdate(rows: seq<Row>, k: nat, r: Row)
    requires k < |rows| && r.owner == rows[k].owner
    ensures RowOwners(rows[k := r]) == RowOwners(rows)
  {
  }

  /** One more item: the entry of its owner counts it, the others are as
      they were. */
  lemma AddToCounts<T>(xs: seq<T>, owner: T -> string, prio: T -> Priority, rows: seq<Row>)
    requires xs != [] && CountsOwned(rows, xs[..|xs| - 1], owner, prio)
    requires RowOwners(rows) == FirstSeen(xs[..|xs| - 1], owner)
    ensures CountsOwned(AddTo(rows, owner(xs[|xs| - 1]), prio(xs[|xs| - 1])), xs, owner, prio)
  {
    var init, x := xs[..|xs| - 1], xs[|xs| - 1];
    var o := owner(x);
    var after := AddTo(rows, o, prio(x));
    FirstSeenShape(init, owner);
    match RowOf(rows, o)
    case Some(idx) =>
      forall k | 0 <= k < |after| ensures after[k].counts == TallyPrio(OwnedBy(xs, owner, after[k].owner), prio) {
        OwnedBySnoc(xs, owner, after[k].owner);
        if k == idx {
          assert after[k] == Row(o, Bump(rows[idx].counts, prio(x)));
          assert rows[idx].counts == TallyPrio(OwnedBy(init, owner, o), prio);
          TallyPrioSnoc(OwnedBy(init, owner, o), x, prio);
        } else {
          assert after[k] == rows[k];
          assert RowOwners(rows)[k] != RowOwners(rows)[idx];
        }
      }
    case None =>
      forall k | 0 <= k < |after| ensures after[k].counts == TallyPrio(OwnedBy(xs, owner, after[k].owner), prio) {
        OwnedBySnoc(xs, owner, after[k].owner);
        if k == |rows| {
          FilterMembersEmpty(init, owner, o, rows);
          TallyPrioSnoc([], x, prio);
          assert [] + [x] == [x];
        } else {
          assert after[k] == rows[k];
        }
      }
  }

  /** One more item bumps the count of its priority. */
  lemma TallyPrioSnoc<T>(ys: seq<T>, y: T, prio: T -> Priority)
    ensures TallyPrio(ys + [y], prio) == Bump(TallyPrio(ys, prio), prio(y))
  {
    assert (ys + [y])[..|ys|] == ys;
  }

  /** An owner without an entry owns none of the items so far. */
  lemma FilterMembersEmpty<T>(init: seq<T>, owner: T -> string, o: string, rows: seq<Row>)
    requires RowOwners(rows) == FirstSeen(init, owner) && RowOf(rows, o).None?
    ensures OwnedBy(init, owner, o) == []
  {
    FirstSeenShape(init, owner);
    forall x | x in init ensures owner(x) != o {
      assert owner(x) in Image(init, owner);
      assert owner(x) in RowOwners(rows);
    }
    FilterNone(init, x => owner(x) == o);
  }

  /** Filtering out every item leaves nothing. */
  lemma {:induction false} FilterNone<T>(xs: seq<T>, p: T -> bool)
    requires forall x :: x in xs ==> !p(x)
    ensures Filter(xs, p) == []
  {
    if xs != [] {
      assert xs[0] in xs;
      FilterNone(xs[1..], p);
    }
  }

  /** The breakdown has one entry per owner, in order of first appearance,
      and each entry counts exactly its owner's items by priority. */
  lemma {:induction false} BreakdownByShape<T>(xs: seq<T>, owner: T -> string, prio: T -> Priority)
    ensures RowOwners(BreakdownBy(xs, owner, prio)) == FirstSeen(xs, owner)
    ensures CountsOwned(BreakdownBy(xs, owner, prio), xs, owner, prio)
  {
    if xs != [] {
      var init, x := xs[..|xs| - 1], xs[|xs| - 1];
      var rows := BreakdownBy(init, owner, prio);
      BreakdownByShape(init, owner, prio);
      AddToCounts(xs, owner, prio, rows);
      match RowOf(rows, owner(x))
      case Some(k) =>
        OwnersUpdate(rows, k, Row(owner(x), Bump(rows[k].counts, prio(x))));
        assert owner(x) in FirstSeen(init, owner) by { assert RowOwners(rows)[k] == owner(x); }
      case None =>
        assert owner(x) !in RowOwners(rows);
    }
  }

  /** The breakdown of the merged actions. */
  function OwnerRows(docs: seq<DayDoc>): seq<Row>
  {
    BreakdownBy(AllActions(docs), InferOwner, InferPriority)
  }

  /** `TallyPrio` with `infer_priority` is the `Counter` `parse_day_doc`
      builds. */
  lemma {:induction false} TallyPrioIsTally(xs: seq<string>)
    ensures TallyPrio(xs, InferPriority) == Tally(xs)
  {
    if xs != [] {
      TallyPrioIsTally(xs[..|xs| - 1]);
    }
  }

  /** `ob` has one entry per owner of the merged actions, each once and in
      order of first appearance, and each entry is the priority `Counter`
      of that owner's actions. */
  lemma OwnerRowsShape(docs: seq<DayDoc>)
    ensures var rows := OwnerRows(docs); var all := AllActions(docs);
      && Distinct(RowOwners(rows))
      && (forall o :: o in RowOwners(rows) <==> o in Image(all, InferOwner))
      && RowOwners(rows) == FirstSeen(all, InferOwner)
      && forall k :: 0 <= k < |rows| ==> rows[k].counts == Tally(OwnedBy(all, InferOwner, rows[k].owner))
  {
    var rows := OwnerRows(docs);
    var all := AllActions(docs);
    BreakdownByShape(all, InferOwner, InferPriority);
    FirstSeenShape(all, InferOwner);
    forall k | 0 <= k < |rows| ensures rows[k].counts == Tally(OwnedBy(all, InferOwner, rows[k].owner)) {
      TallyPrioIsTally(OwnedBy(all, InferOwner, rows[k].owner));
    }
  }

  /** One more action entered in the breakdown. */
  lemma BreakdownStep<T>(before: seq<T>, acts: seq<T>, j: nat, next: nat, owner: T -> string,
                         prio: T -> Priority, rows: seq<Row>)
    requires j < |acts| && next == j + 1 && rows == BreakdownBy(before + acts[..j], owner, prio)
    ensures AddTo(rows, owner(acts[j]), prio(acts[j])) == BreakdownBy(before + acts[..next], owner, prio)
  {
    PrefixSnoc(before, acts, j);
  }

  /** The breakdown loop `for d in day_docs: for a in d.actions:
      ob[infer_owner(a)][infer_priority(a)] += 1`. */
  method BuildBreakdown(docs: seq<DayDoc>) returns (ob: seq<Row>)
    ensures ob == OwnerRows(docs)
  {
    ob := [];
    var i := 0;
    while i < |docs|
      invariant 0 <= i <= |docs|
      invariant ob == BreakdownBy(AllActions(docs[..i]), InferOwner, InferPriority)
    {
      var acts := docs[i].actions;
      ghost var before := AllActions(docs[..i]);
      assert before + acts[..0] == before;
      var j := 0;
      while j < |acts|
        invariant 0 <= j <= |acts|
        invariant ob == BreakdownBy(before + acts[..j], InferOwner, InferPriority)
      {
        var next := j + 1;
        BreakdownStep(before, acts, j, next, InferOwner, InferPriority, ob);
        ob := AddTo(ob, InferOwner(acts[j]), InferPriority(acts[j]));
        j := next;
      }
      DayDone(docs, i);
      i := i + 1;
    }
    assert docs[..i] == docs;
  }

  // ---------------------------------------------------------------------
  // sorted(ob.items(), key=(high, medium, low, total), reverse=True)

  /** The ranking tuple negated, so that the ascending stable sort gives
      `reverse=True`: descending, equal tuples in their original order. */
  function RankKey(r: Row): Key
  {
    var c := r.counts;
    [Num(0 - c.high), Num(0 - c.medium), Num(0 - c.low), Num(0 - (c.high + c.medium + c.low))]
  }

  /** `a` ranks above `b`: its (high, medium, low, total) tuple is larger. */
  predicate Outranks(a: Row, b: Row)
  {
    var x, y := a.counts, b.counts;
    x.high > y.high || (x.high == y.high && (x.medium > y.medium || (x.medium == y.medium
      && (x.low > y.low || (x.low == y.low && x.high + x.medium + x.low > y.high + y.medium + y.low)))))
  }

  /** The negated key is smaller exactly when the tuple is larger. */
  lemma RankKeyLess(a: Row, b: Row)
    ensures KeyLess(RankKey(a), RankKey(b)) <==> Outranks(a, b)
  {
    var x, y := a.counts, b.counts;
    var ta, tb := Num(0 - (x.high + x.medium + x.low)), Num(0 - (y.high + y.medium + y.low));
    KeyLessCons(ta, [], tb, []);
    KeyLessCons(Num(0 - x.low), [ta], Num(0 - y.low), [tb]);
    KeyLessCons(Num(0 - x.medium), [Num(0 - x.low), ta], Num(0 - y.medium), [Num(0 - y.low), tb]);
    KeyLessCons(Num(0 - x.high), [Num(0 - x.medium), Num(0 - x.low), ta],
                Num(0 - y.high), [Num(0 - y.medium), Num(0 - y.low), tb]);
  }

  /** Tuples compare by their first component, then by the rest. */
  lemma KeyLessCons(a: KeyPart, ra: Key, b: KeyPart, rb: Key)
    ensures KeyLess([a] + ra, [b] + rb) <==> if a != b then PartLess(a, b) else KeyLess(ra, rb)
  {
    assert ([a] + ra)[1..] == ra && ([b] + rb)[1..] == rb;
  }

  /** In a list sorted by `RankKey` no entry outranks one before it. */
  lemma SortedRanks(s: seq<Row>)
    requires SortedBy(s, RankKey)
    ensures forall i, j :: 0 <= i < j < |s| ==> !Outranks(s[j], s[i])
  {
    forall i, j | 0 <= i < j < |s| ensures !Outranks(s[j], s[i]) {
      RankKeyLess(s[j], s[i]);
    }
  }

  /** `ranked`: the entries by descending (high, medium, low, total). */
  function Ranked(rows: seq<Row>): seq<Row>
  {
    StableSort(rows, RankKey)
  }

  /** The ranking holds every entry once, no entry outranks an earlier one,
      and entries with equal tuples keep their order in `ob`, which is the
      order their owners first appear. */
  lemma RankedOrder(rows: seq<Row>, k: Key)
    ensures multiset(Ranked(rows)) == multiset(rows)
    ensures forall i, j :: 0 <= i < j < |Ranked(rows)| ==> !Outranks(Ranked(rows)[j], Ranked(rows)[i])
    ensures Having(Ranked(rows), RankKey, k) == Having(rows, RankKey, k)
  {
    StableSortPermutation(rows, RankKey);
    StableSortSorted(rows, RankKey);
    SortedRanks(Ranked(rows));
    StableSortStable(rows, RankKey, k);
  }

  // ---------------------------------------------------------------------
  // The table

  /** `| owner | high | medium | low | **total** |`. */
  function RowLine(r: Row): string
  {
    var c := r.counts;
    "| " + r.owner + " | " + Dates.Decimal(c.high) + " | " + Dates.Decimal(c.medium) + " | "
      + Dates.Decimal(c.low) + " | **" + Dates.Decimal(c.high + c.medium + c.low) + "** |"
  }

  /** One table line per entry, in order. */
  function RowLines(rows: seq<Row>): (r: seq<string>)
    ensures |r| == |rows| && forall k :: 0 <= k < |rows| ==> r[k] == RowLine(rows[k])
  {
    if rows == [] then [] else RowLines(rows[..|rows| - 1]) + [RowLine(rows[|rows| - 1])]
  }

  /** The row loop of the breakdown. */
  method EmitRows(out: seq<string>, ranked: seq<Row>) returns (out': seq<string>)
    ensures out' == out + RowLines(ranked)
  {
    out' := out;
    var i := 0;
    while i < |ranked|
      invariant 0 <= i <= |ranked|
      invariant out' == out + RowLines(ranked[..i])
    {
      assert ranked[..i + 1][..i] == ranked[..i];
      out' := out' + [RowLine(ranked[i])];
      i := i + 1;
    }
    assert ranked[..i] == ranked;
  }
}
