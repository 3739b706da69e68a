/**
 * Python's `sorted(xs, key=...)` and `list.sort(key=...)`: a stable sort
 * whose keys are compared the way Python compares tuples of ints and
 * strings. Every `sorted` call of the digest scripts is this function with
 * its own key, so it is modelled once, by insertion sort, and its three
 * promises are proved: the output is ordered, it is a permutation of the
 * input, and items with equal keys keep their relative order.
 */
module Sorting {

  /** One component of a sort key: an int or a string. */
  datatype KeyPart = Num(n: int) | Str(s: string)

  /** A sort key, compared as a Python tuple. */
  type Key = seq<KeyPart>

  /** Python's `str` `<`: lexicographic by code point. */
  predicate StrLess(a: string, b: string)
  {
    if a == [] then b != []
    else if b == [] then false
    else if a[0] != b[0] then a[0] < b[0]
    else StrLess(a[1..], b[1..])
  }

  /** Ints compare as ints and strings as strings; the source never puts an
      int and a string at the same position of two keys, and this model
      orders any int before any string to keep the order total. */
  predicate PartLess(x: KeyPart, y: KeyPart)
  {
    match (x, y)
    case (Num(a), Num(b)) => a < b
    case (Str(a), Str(b)) => StrLess(a, b)
    case (Num(_), Str(_)) => true
    case (Str(_), Num(_)) => false
  }

  /** Python's tuple `<`: the first unequal component decides, and a proper
      prefix is smaller. */
  predicate KeyLess(a: Key, b: Key)
  {
    if a == [] then b != []
    else if b == [] then false
    else if a[0] != b[0] then PartLess(a[0], b[0])
    else KeyLess(a[1..], b[1..])
  }

  // ---------------------------------------------------------------------
  // KeyLess is a strict total order

  lemma {:induction false} StrLessIrreflexive(a: string)
    ensures !StrLess(a, a)
  {
    if a != [] { StrLessIrreflexive(a[1..]); }
  }

  lemma {:induction false} StrLessTransitive(a: string, b: string, c: string)
    requires StrLess(a, b) && StrLess(b, c)
    ensures StrLess(a, c)
  {
    if a != [] && b != [] && c != [] && a[0] == b[0] && b[0] == c[0] {
      StrLessTransitive(a[1..], b[1..], c[1..]);
    }
  }

  lemma {:induction false} StrLessTotal(a: string, b: string)
    ensures a == b || StrLess(a, b) || StrLess(b, a)
  {
    if a != [] && b != [] && a[0] == b[0] {
      StrLessTotal(a[1..], b[1..]);
      if a[1..] == b[1..] {
        assert a == [a[0]] + a[1..] && b == [b[0]] + b[1..];
      }
    }
  }

  lemma PartLessIrreflexive(x: KeyPart)
    ensures !PartLess(x, x)
  {
    if x.Str? { StrLessIrreflexive(x.s); }
  }

  lemma PartLessTransitive(x: KeyPart, y: KeyPart, z: KeyPart)
    requires PartLess(x, y) && PartLess(y, z)
    ensures PartLess(x, z)
  {
    if x.Str? && y.Str? && z.Str? { StrLessTransitive(x.s, y.s, z.s); }
  }

  lemma PartLessTotal(x: KeyPart, y: KeyPart)
    ensures x == y || PartLess(x, y) || PartLess(y, x)
  {
    if x.Str? && y.Str? { StrLessTotal(x.s, y.s); }
  }

  lemma {:induction false} KeyLessIrreflexive(a: Key)
    ensures !KeyLess(a, a)
  {
    if a != [] { KeyLessIrreflexive(a[1..]); }
  }

  lemma {:induction false} KeyLessTransitive(a: Key, b: Key, c: Key)
    requires KeyLess(a, b) && KeyLess(b, c)
    ensures KeyLess(a, c)
  {
    if a == [] || b == [] || c == [] {
    } else if a[0] != b[0] && b[0] != c[0] {
      PartLessTransitive(a[0], b[0], c[0]);
      if a[0] == c[0] { PartLessIrreflexive(a[0]); }
    } else if a[0] == b[0] && b[0] == c[0] {
      KeyLessTransitive(a[1..], b[1..], c[1..]);
    }
  }

  lemma {:induction false} KeyLessTotal(a: Key, b: Key)
    ensures a == b || KeyLess(a, b) || KeyLess(b, a)
  {
    if a != [] && b != [] {
      if a[0] == b[0] {
        KeyLessTotal(a[1..], b[1..]);
        if a[1..] == b[1..] {
          assert a == [a[0]] + a[1..] && b == [b[0]] + b[1..];
        }
      } else {
        PartLessTotal(a[0], b[0]);
      }
    }
  }

  /** Not-less is transitive: the fact insertion sort relies on. */
  lemma KeyLeTransitive(a: Key, b: Key, c: Key)
    requires !KeyLess(b, a) && !KeyLess(c, b)
    ensures !KeyLess(c, a)
  {
    if KeyLess(c, a) {
      KeyLessTotal(b, c);
      if KeyLess(b, c) { KeyLessTransitive(b, c, a); }
      else if KeyLess(c, b) { }
    }
  }

  lemma KeyLessAsymmetric(a: Key, b: Key)
    requires KeyLess(a, b)
    ensures !KeyLess(b, a)
  {
    if KeyLess(b, a) {
      KeyLessTransitive(a, b, a);
      KeyLessIrreflexive(a);
    }
  }

  // ---------------------------------------------------------------------
  // Stable insertion sort

  /** `xs` is in non-decreasing key order. */
  predicate SortedBy<T>(xs: seq<T>, key: T -> Key)
  {
    forall i, j :: 0 <= i < j < |xs| ==> !KeyLess(key(xs[j]), key(xs[i]))
  }

  /** Inserts `x` before the first element whose key is not smaller than its
      own: `x` goes ahead of every element with an equal key. */
  function Insert<T>(x: T, r: seq<T>, key: T -> Key): (s: seq<T>)
    ensures |s| == |r| + 1
  {
    if r == [] || !KeyLess(key(r[0]), key(x)) then [x] + r
    else [r[0]] + Insert(x, r[1..], key)
  }

  /** `sorted(xs, key=key)`. */
  function StableSort<T>(xs: seq<T>, key: T -> Key): (s: seq<T>)
    ensures |s| == |xs|
  {
    if xs == [] then [] else Insert(xs[0], StableSort(xs[1..], key), key)
  }

  /** The elements of `xs` whose key is `k`, in order. */
  function Having<T>(xs: seq<T>, key: T -> Key, k: Key): seq<T>
  {
    if xs == [] then []
    else (if key(xs[0]) == k then [xs[0]] else []) + Having(xs[1..], key, k)
  }

  lemma {:induction false} InsertMultiset<T>(x: T, r: seq<T>, key: T -> Key)
    ensures multiset(Insert(x, r, key)) == multiset(r) + multiset{x}
  {
    if r != [] && KeyLess(key(r[0]), key(x)) {
      InsertMultiset(x, r[1..], key);
      assert r == [r[0]] + r[1..];
    }
  }

  /** Putting a key no greater than any in a sorted sequence in front keeps it sorted. */
  lemma ConsSorted<T>(h: T, t: seq<T>, key: T -> Key)
    requires SortedBy(t, key)
    requires forall j :: 0 <= j < |t| ==> !KeyLess(key(t[j]), key(h))
    ensures SortedBy([h] + t, key)
  {
    var s := [h] + t;
    forall i, j | 0 <= i < j < |s| ensures !KeyLess(key(s[j]), key(s[i])) {
      if i == 0 { assert s[j] == t[j - 1]; } else { assert s[i] == t[i - 1] && s[j] == t[j - 1]; }
    }
  }

  /** Inserting past the head leaves every element no smaller than the head. */
  lemma InsertPastHead<T>(x: T, r: seq<T>, key: T -> Key)
    requires r != [] && SortedBy(r, key) && KeyLess(key(r[0]), key(x))
    ensures forall j :: 0 <= j < |Insert(x, r[1..], key)| ==> !KeyLess(key(Insert(x, r[1..], key)[j]), key(r[0]))
  {
    var t := Insert(x, r[1..], key);
    InsertMultiset(x, r[1..], key);
    forall j | 0 <= j < |t| ensures !KeyLess(key(t[j]), key(r[0])) {
      assert t[j] in multiset(r[1..]) + multiset{x};
      if t[j] == x {
        KeyLessAsymmetric(key(r[0]), key(x));
      } else {
        assert t[j] in r[1..];
        var k :| 0 <= k < |r[1..]| && r[1..][k] == t[j];
        assert r[k + 1] == t[j];
      }
    }
  }

  lemma {:induction false} InsertSorted<T>(x: T, r: seq<T>, key: T -> Key)
    requires SortedBy(r, key)
    ensures SortedBy(Insert(x, r, key), key)
  {
    if r == [] {
    } else if !KeyLess(key(r[0]), key(x)) {
      forall j | 0 <= j < |r| ensures !KeyLess(key(r[j]), key(x)) {
        if j > 0 { KeyLeTransitive(key(x), key(r[0]), key(r[j])); }
      }
      ConsSorted(x, r, key);
    } else {
      InsertSorted(x, r[1..], key);
      InsertPastHead(x, r, key);
      ConsSorted(r[0], Insert(x, r[1..], key), key);
    }
  }

  /** `sorted` returns its input in non-decreasing key order... */
  lemma {:induction false} StableSortSorted<T>(xs: seq<T>, key: T -> Key)
    ensures SortedBy(StableSort(xs, key), key)
  {
    if xs != [] {
      StableSortSorted(xs[1..], key);
      InsertSorted(xs[0], StableSort(xs[1..], key), key);
    }
  }

  /** ...as a permutation of it... */
  lemma {:induction false} StableSortPermutation<T>(xs: seq<T>, key: T -> Key)
    ensures multiset(StableSort(xs, key)) == multiset(xs)
  {
    if xs != [] {
      StableSortPermutation(xs[1..], key);
      InsertMultiset(xs[0], StableSort(xs[1..], key), key);
      assert xs == [xs[0]] + xs[1..];
    }
  }

  lemma {:induction false} InsertHaving<T>(x: T, r: seq<T>, key: T -> Key, k: Key)
    ensures Having(Insert(x, r, key), key, k) == (if key(x) == k then [x] else []) + Having(r, key, k)
  {
    var s := Insert(x, r, key);
    if r == [] || !KeyLess(key(r[0]), key(x)) {
      assert s[1..] == r;
    } else {
      InsertHaving(x, r[1..], key, k);
      assert s[1..] == Insert(x, r[1..], key);
      if key(x) == k { KeyLessIrreflexive(k); }
    }
  }

  /** ...keeping items with equal keys in their original order. */
  lemma {:induction false} StableSortStable<T>(xs: seq<T>, key: T -> Key, k: Key)
    ensures Having(StableSort(xs, key), key, k) == Having(xs, key, k)
  {
    if xs != [] {
      StableSortStable(xs[1..], key, k);
      InsertHaving(xs[0], StableSort(xs[1..], key), key, k);
    }
  }

  // ---------------------------------------------------------------------
  // Filtering, the list comprehension `[x for x in xs if p(x)]`

  function Filter<T>(xs: seq<T>, p: T -> bool): (r: seq<T>)
    ensures |r| <= |xs|
  {
    if xs == [] then [] else (if p(xs[0]) then [xs[0]] else []) + Filter(xs[1..], p)
  }

  lemma {:induction false} FilterMembers<T>(xs: seq<T>, p: T -> bool, x: T)
    ensures x in Filter(xs, p) <==> x in xs && p(x)
  {
    if xs != [] {
      FilterMembers(xs[1..], p, x);
      assert x in xs <==> x == xs[0] || x in xs[1..];
    }
  }

  lemma {:induction false} FilterAppend<T>(xs: seq<T>, ys: seq<T>, p: T -> bool)
    ensures Filter(xs + ys, p) == Filter(xs, p) + Filter(ys, p)
  {
    if xs != [] {
      assert (xs + ys)[0] == xs[0];
      assert (xs + ys)[1..] == xs[1..] + ys;
      FilterAppend(xs[1..], ys, p);
    } else {
      assert xs + ys == ys;
    }
  }

  /** The last element of a non-empty sequence. */
  function Last<T>(xs: seq<T>): T
    requires xs != []
  {
    xs[|xs| - 1]
  }

  // ---------------------------------------------------------------------
  // Mapping, the list comprehension `[f(x) for x in xs]`

  function Map<T, U>(xs: seq<T>, f: T -> U): (r: seq<U>)
    ensures |r| == |xs|
    ensures forall k :: 0 <= k < |xs| ==> r[k] == f(xs[k])
  {
    seq(|xs|, k requires 0 <= k < |xs| => f(xs[k]))
  }

  /** Mapping distributes over concatenation. */
  lemma MapAppend<T, U>(xs: seq<T>, ys: seq<T>, f: T -> U)
    ensures Map(xs + ys, f) == Map(xs, f) + Map(ys, f)
  {
  }

  /** Taking one element out of a sequence takes it out of its multiset. */
  lemma MultisetRemove<T>(ys: seq<T>, j: nat)
    requires j < |ys|
    ensures multiset(ys[..j] + ys[j + 1..]) == multiset(ys) - multiset{ys[j]}
  {
    assert ys == ys[..j] + [ys[j]] + ys[j + 1..];
  }

  /** Mapping commutes with taking one element out. */
  lemma MapRemove<T, U>(ys: seq<T>, j: nat, f: T -> U)
    requires j < |ys|
    ensures Map(ys[..j] + ys[j + 1..], f) == Map(ys, f)[..j] + Map(ys, f)[j + 1..]
  {
    var a := Map(ys[..j] + ys[j + 1..], f);
    var b := Map(ys, f)[..j] + Map(ys, f)[j + 1..];
    forall k | 0 <= k < |a| ensures a[k] == b[k] {
      if k < j {
        assert (ys[..j] + ys[j + 1..])[k] == ys[k];
      } else {
        assert (ys[..j] + ys[j + 1..])[k] == ys[k + 1];
      }
    }
  }

  lemma MapCons<T, U>(xs: seq<T>, f: T -> U)
    requires xs != []
    ensures Map(xs, f) == [f(xs[0])] + Map(xs[1..], f)
  {
    var a := Map(xs, f);
    var b := [f(xs[0])] + Map(xs[1..], f);
    forall k | 0 <= k < |a| ensures a[k] == b[k] {
      if k > 0 {
        assert xs[1..][k - 1] == xs[k];
      }
    }
  }

  /** Mapping two permutations of each other gives two permutations of
      each other. */
  lemma {:induction false} MapPermutation<T, U>(xs: seq<T>, ys: seq<T>, f: T -> U)
    requires multiset(xs) == multiset(ys)
    ensures multiset(Map(xs, f)) == multiset(Map(ys, f))
    decreases |xs|
  {
    if xs == [] {
      assert |multiset(ys)| == 0;
    } else {
      var x := xs[0];
      assert x in multiset(ys);
      var j :| 0 <= j < |ys| && ys[j] == x;
      var rest := ys[..j] + ys[j + 1..];
      MultisetRemove(ys, j);
      assert xs == [x] + xs[1..];
      assert multiset(xs[1..]) == multiset(rest);
      MapPermutation(xs[1..], rest, f);
      var m := Map(ys, f);
      MultisetRemove(m, j);
      MapRemove(ys, j, f);
      MapCons(xs, f);
      assert f(x) in multiset(m) by { assert m[j] == f(x); }
    }
  }

  /** Filtering two permutations of each other gives two permutations of
      each other. */
  lemma {:induction false} FilterPermutation<T>(xs: seq<T>, ys: seq<T>, p: T -> bool)
    requires multiset(xs) == multiset(ys)
    ensures multiset(Filter(xs, p)) == multiset(Filter(ys, p))
    decreases |xs|
  {
    if xs == [] {
      assert |multiset(ys)| == 0;
    } else {
      var x := xs[0];
      assert x in multiset(ys);
      var j :| 0 <= j < |ys| && ys[j] == x;
      var rest := ys[..j] + ys[j + 1..];
      MultisetRemove(ys, j);
      assert xs == [x] + xs[1..];
      assert multiset(xs[1..]) == multiset(rest);
      FilterPermutation(xs[1..], rest, p);
      FilterAppend([x], xs[1..], p);
      FilterWithout(ys, j, p);
    }
  }

  /** Filtering keeps `ys[j]` apart from the rest, up to order. */
  lemma FilterWithout<T>(ys: seq<T>, j: nat, p: T -> bool)
    requires j < |ys|
    ensures multiset(Filter(ys, p)) == multiset(Filter([ys[j]], p)) + multiset(Filter(ys[..j] + ys[j + 1..], p))
  {
    assert ys[..j] + ys[j..] == ys;
    assert ys[j..][0] == ys[j] && ys[j..][1..] == ys[j + 1..];
    FilterAppend(ys[..j], ys[j..], p);
    FilterFirst(ys[j..], p);
    FilterAppend(ys[..j], ys[j + 1..], p);
  }

  /** Filtering keeps the first item apart from the rest. */
  lemma FilterFirst<T>(ys: seq<T>, p: T -> bool)
    requires ys != []
    ensures Filter(ys, p) == Filter([ys[0]], p) + Filter(ys[1..], p)
  {
    assert [ys[0]][1..] == [];
  }
}
