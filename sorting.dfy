/** Python's stable `sorted`/`list.sort` with a key, for the two key shapes
    the core uses: a name (`sorted(d.items())` over a dict, whose keys are
    distinct) and the pair `(level, name)` of the inheritance sequencer.
    A plain name key is the pair with level 0. */
module Sorting {
  import Text

  datatype SortKey = SortKey(level: nat, name: string)

  /** Python's tuple order on `(level, name)`. */
  predicate KeyLess(a: SortKey, b: SortKey)
  {
    a.level < b.level || (a.level == b.level && Text.Less(a.name, b.name))
  }

  predicate KeyLeq(a: SortKey, b: SortKey) { !KeyLess(b, a) }

  lemma KeyLessIrreflexive(a: SortKey)
    ensures !KeyLess(a, a)
  {
    Text.LessIrreflexive(a.name);
  }

  lemma KeyLessTransitive(a: SortKey, b: SortKey, c: SortKey)
    requires KeyLess(a, b) && KeyLess(b, c)
    ensures KeyLess(a, c)
  {
    if a.level == b.level == c.level { Text.LessTransitive(a.name, b.name, c.name); }
  }

  lemma KeyLessTotal(a: SortKey, b: SortKey)
    requires a != b
    ensures KeyLess(a, b) || KeyLess(b, a)
  {
    if a.level == b.level { Text.LessTotal(a.name, b.name); }
  }

  lemma KeyLeqTransitive(a: SortKey, b: SortKey, c: SortKey)
    requires KeyLeq(a, b) && KeyLeq(b, c)
    ensures KeyLeq(a, c)
  {
    if KeyLess(c, a) {
      if a == b { } else if b == c { } else {
        KeyLessTotal(a, b);
        KeyLessTotal(b, c);
        KeyLessTransitive(a, b, c);
        Text.LessAsymmetric(c.name, a.name);
      }
    }
  }

  /** Non-decreasing by key, every pair (not only neighbours). */
  predicate SortedBy<T>(xs: seq<T>, key: T -> SortKey)
  {
    forall i, j :: 0 <= i < j < |xs| ==> KeyLeq(key(xs[i]), key(xs[j]))
  }

  /** Strictly increasing by key. */
  predicate StrictlySortedBy<T>(xs: seq<T>, key: T -> SortKey)
  {
    forall i, j :: 0 <= i < j < |xs| ==> KeyLess(key(xs[i]), key(xs[j]))
  }

  predicate DistinctKeys<T>(xs: seq<T>, key: T -> SortKey)
  {
    forall i, j :: 0 <= i < j < |xs| ==> key(xs[i]) != key(xs[j])
  }

  /** Inserts x before the first element whose key is not below x's: an
      element that came earlier in the input stays before equal keys. */
  function Insert<T>(x: T, xs: seq<T>, key: T -> SortKey): (r: seq<T>)
    ensures multiset(r) == multiset(xs) + multiset{x}
    ensures |r| == |xs| + 1
    decreases |xs|
  {
    if xs == [] then [x]
    else if KeyLess(key(xs[0]), key(x)) then
      assert xs == [xs[0]] + xs[1..];
      [xs[0]] + Insert(x, xs[1..], key)
    else [x] + xs
  }

  /** Stable insertion sort by key. */
  function SortBy<T>(xs: seq<T>, key: T -> SortKey): (r: seq<T>)
    ensures multiset(r) == multiset(xs)
    ensures |r| == |xs|
    decreases |xs|
  {
    if xs == [] then []
    else
      assert xs == [xs[0]] + xs[1..];
      Insert(xs[0], SortBy(xs[1..], key), key)
  }

  lemma {:induction false} InsertSorted<T>(x: T, xs: seq<T>, key: T -> SortKey)
    requires SortedBy(xs, key)
    ensures SortedBy(Insert(x, xs, key), key)
    decreases |xs|
  {
    if xs != [] && KeyLess(key(xs[0]), key(x)) {
      var rest := Insert(x, xs[1..], key);
      InsertSorted(x, xs[1..], key);
      var r := [xs[0]] + rest;
      forall j | 1 <= j < |r| ensures KeyLeq(key(r[0]), key(r[j])) {
        assert r[j] in multiset(rest);
        if r[j] == x {
          KeyLessIrreflexive(key(x));
          if KeyLess(key(x), key(xs[0])) { KeyLessTransitive(key(x), key(xs[0]), key(x)); }
        } else {
          assert r[j] in multiset(xs[1..]);
          var k :| 0 <= k < |xs[1..]| && xs[1..][k] == r[j];
          assert xs[k + 1] == r[j];
        }
      }
    } else if xs != [] {
      var r := [x] + xs;
      forall i, j | 0 <= i < j < |r| ensures KeyLeq(key(r[i]), key(r[j])) {
        if i == 0 && j > 1 {
          KeyLeqTransitive(key(x), key(xs[0]), key(xs[j - 1]));
        }
      }
    }
  }

  lemma {:induction false} SortBySorted<T>(xs: seq<T>, key: T -> SortKey)
    ensures SortedBy(SortBy(xs, key), key)
    decreases |xs|
  {
    if xs != [] {
      SortBySorted(xs[1..], key);
      InsertSorted(xs[0], SortBy(xs[1..], key), key);
    }
  }

  /** Distinct keys make the sorted order strict: this is `sorted(d.items())`
      over a dict, whose keys are distinct. */
  lemma SortByStrict<T>(xs: seq<T>, key: T -> SortKey)
    requires DistinctKeys(xs, key)
    ensures StrictlySortedBy(SortBy(xs, key), key)
    ensures DistinctKeys(SortBy(xs, key), key)
  {
    var r := SortBy(xs, key);
    SortBySorted(xs, key);
    SortByDistinct(xs, key);
    forall i, j | 0 <= i < j < |r| ensures KeyLess(key(r[i]), key(r[j])) {
      KeyLessTotal(key(r[i]), key(r[j]));
    }
  }

  lemma {:induction false} InsertDistinct<T>(x: T, ys: seq<T>, key: T -> SortKey)
    requires DistinctKeys(ys, key)
    requires forall y | y in ys :: key(y) != key(x)
    ensures DistinctKeys(Insert(x, ys, key), key)
    decreases |ys|
  {
    if ys != [] && KeyLess(key(ys[0]), key(x)) {
      var rest := Insert(x, ys[1..], key);
      InsertDistinct(x, ys[1..], key);
      var r := [ys[0]] + rest;
      forall j | 1 <= j < |r| ensures key(r[0]) != key(r[j]) {
        assert r[j] in multiset(rest);
        if r[j] != x {
          assert r[j] in multiset(ys[1..]);
          var k :| 0 <= k < |ys[1..]| && ys[1..][k] == r[j];
          assert ys[k + 1] == r[j];
        }
      }
    }
  }

  lemma {:induction false} SortByDistinct<T>(xs: seq<T>, key: T -> SortKey)
    requires DistinctKeys(xs, key)
    ensures DistinctKeys(SortBy(xs, key), key)
    decreases |xs|
  {
    if xs != [] {
      var ys := SortBy(xs[1..], key);
      SortByDistinct(xs[1..], key);
      forall y | y in ys ensures key(y) != key(xs[0]) {
        assert y in multiset(xs[1..]);
        var k :| 0 <= k < |xs[1..]| && xs[1..][k] == y;
        assert xs[k + 1] == y;
      }
      InsertDistinct(xs[0], ys, key);
    }
  }

  /** A Python dict as an association list in insertion order: the keys are
      distinct. */
  predicate IsDict<V>(xs: seq<(string, V)>)
  {
    forall i, j :: 0 <= i < j < |xs| ==> xs[i].0 != xs[j].0
  }

  /** The key `sorted(d.items())` orders by (a dict's keys are distinct, so
      the values are never compared). */
  function ItemKey<V>(e: (string, V)): SortKey { SortKey(0, e.0) }

  /** `sorted(d.items())`: ascending strictly by key, still a dict, and a
      permutation of the items. */
  lemma SortedItems<V>(xs: seq<(string, V)>)
    requires IsDict(xs)
    ensures IsDict(SortBy(xs, ItemKey))
    ensures forall i, j :: 0 <= i < j < |SortBy(xs, ItemKey)| ==>
      Text.Less(SortBy(xs, ItemKey)[i].0, SortBy(xs, ItemKey)[j].0)
    ensures multiset(SortBy(xs, ItemKey)) == multiset(xs)
  {
    assert DistinctKeys(xs, ItemKey);
    SortByStrict(xs, ItemKey);
  }

  /** Every element of a sorted list comes from the input ... */
  lemma SortedFromInput<T>(xs: seq<T>, key: T -> SortKey, i: nat)
    requires i < |SortBy(xs, key)|
    ensures exists k :: 0 <= k < |xs| && xs[k] == SortBy(xs, key)[i]
  {
    var r := SortBy(xs, key);
    assert r[i] in multiset(r);
    assert r[i] in multiset(xs);
    assert r[i] in xs;
  }

  /** ... and every input element is in the sorted list. */
  lemma InputInSorted<T>(xs: seq<T>, key: T -> SortKey, k: nat)
    requires k < |xs|
    ensures exists i :: 0 <= i < |SortBy(xs, key)| && xs[k] == SortBy(xs, key)[i]
  {
    var r := SortBy(xs, key);
    assert xs[k] in multiset(xs);
    assert xs[k] in multiset(r);
    assert xs[k] in r;
  }
  /** Insertion reads the key only on the elements it compares. */
  lemma {:induction false} InsertCongruent<T>(x: T, xs: seq<T>, k1: T -> SortKey, k2: T -> SortKey)
    requires k1(x) == k2(x)
    requires forall y | y in xs :: k1(y) == k2(y)
    ensures Insert(x, xs, k1) == Insert(x, xs, k2)
    decreases |xs|
  {
    if xs != [] {
      InsertCongruent(x, xs[1..], k1, k2);
    }
  }

  /** Two keys that agree on every element of the list sort it alike: the
      sort depends on the key values, not on how they were computed. */
  lemma {:induction false} SortByCongruent<T>(xs: seq<T>, k1: T -> SortKey, k2: T -> SortKey)
    requires forall y | y in xs :: k1(y) == k2(y)
    ensures SortBy(xs, k1) == SortBy(xs, k2)
    decreases |xs|
  {
    if xs != [] {
      SortByCongruent(xs[1..], k1, k2);
      var ys := SortBy(xs[1..], k1);
      forall y | y in ys ensures k1(y) == k2(y) {
        assert y in multiset(ys);
        assert y in multiset(xs[1..]);
      }
      InsertCongruent(xs[0], ys, k1, k2);
    }
  }
  /** In a sorted list an element with a strictly smaller key comes first. */
  lemma SmallerKeyFirst<T>(xs: seq<T>, key: T -> SortKey, i: nat, j: nat)
    requires SortedBy(xs, key) && i < |xs| && j < |xs|
    requires KeyLess(key(xs[i]), key(xs[j]))
    ensures i < j
  {
    KeyLessIrreflexive(key(xs[i]));
  }

  /** The elements of `xs` whose key is `k`, in their order in `xs`. A
      stable sort keeps each of these subsequences as it was. */
  function KeyFilter<T>(xs: seq<T>, key: T -> SortKey, k: SortKey): seq<T>
    decreases |xs|
  {
    if xs == [] then []
    else (if key(xs[0]) == k then [xs[0]] else []) + KeyFilter(xs[1..], key, k)
  }

  lemma {:induction false} KeyFilterMember<T>(xs: seq<T>, key: T -> SortKey, k: SortKey, x: T)
    requires x in KeyFilter(xs, key, k)
    ensures x in xs && key(x) == k
    decreases |xs|
  {
    if x != xs[0] || key(xs[0]) != k {
      KeyFilterMember(xs[1..], key, k, x);
    }
  }

  lemma KeyFilterOwnKey<T>(xs: seq<T>, key: T -> SortKey)
    requires xs != []
    ensures xs[0] in KeyFilter(xs, key, key(xs[0]))
  {
  }

  /** Inserting `x` puts it first among the elements with its key and
      leaves the order of every other key alone. */
  lemma {:induction false} KeyFilterInsert<T>(x: T, ys: seq<T>, key: T -> SortKey, k: SortKey)
    ensures KeyFilter(Insert(x, ys, key), key, k) == (if key(x) == k then [x] else []) + KeyFilter(ys, key, k)
    decreases |ys|
  {
    var r := Insert(x, ys, key);
    var hx: seq<T> := if key(x) == k then [x] else [];
    if ys != [] && KeyLess(key(ys[0]), key(x)) {
      var hy: seq<T> := if key(ys[0]) == k then [ys[0]] else [];
      assert r[0] == ys[0] && r[1..] == Insert(x, ys[1..], key);
      assert KeyFilter(r, key, k) == hy + KeyFilter(Insert(x, ys[1..], key), key, k);
      KeyFilterInsert(x, ys[1..], key, k);
      assert KeyFilter(ys, key, k) == hy + KeyFilter(ys[1..], key, k);
      if key(x) == k {
        KeyLessIrreflexive(k);
        assert hy == [];
      } else {
        assert hx == [];
      }
      assert hy + (hx + KeyFilter(ys[1..], key, k)) == hx + (hy + KeyFilter(ys[1..], key, k));
    } else {
      assert r[0] == x && r[1..] == ys;
      assert KeyFilter(r, key, k) == hx + KeyFilter(ys, key, k);
    }
  }

  /** `SortBy` is stable: the elements with any one key keep their input
      order. */
  lemma {:induction false} SortByStable<T>(xs: seq<T>, key: T -> SortKey, k: SortKey)
    ensures KeyFilter(SortBy(xs, key), key, k) == KeyFilter(xs, key, k)
    decreases |xs|
  {
    if xs != [] {
      SortByStable(xs[1..], key, k);
      KeyFilterInsert(xs[0], SortBy(xs[1..], key), key, k);
    }
  }

  /** Two sequences sorted by key with the same elements in the same order
      under every key are equal: a stable sort has one result. */
  lemma {:induction false} SortedUnique<T>(a: seq<T>, b: seq<T>, key: T -> SortKey)
    requires SortedBy(a, key) && SortedBy(b, key)
    requires forall k :: KeyFilter(a, key, k) == KeyFilter(b, key, k)
    ensures a == b
    decreases |a|
  {
    if a != [] { KeyFilterOwnKey(a, key); }
    if b != [] { KeyFilterOwnKey(b, key); }
    if a == [] || b == [] {
      if a != [] || b != [] {
        assert false;
      }
    } else {
      var ka, kb := key(a[0]), key(b[0]);
      assert b[0] in KeyFilter(a, key, kb);
      KeyFilterMember(a, key, kb, b[0]);
      var i :| 0 <= i < |a| && a[i] == b[0];
      if i > 0 { assert KeyLeq(ka, kb); } else { KeyLessIrreflexive(ka); }
      assert a[0] in KeyFilter(b, key, ka);
      KeyFilterMember(b, key, ka, a[0]);
      var j :| 0 <= j < |b| && b[j] == a[0];
      if j > 0 { assert KeyLeq(kb, ka); } else { KeyLessIrreflexive(kb); }
      if ka != kb { KeyLessTotal(ka, kb); }
      assert a[0] == b[0] by {
        assert KeyFilter(a, key, ka) == KeyFilter(b, key, ka);
        assert KeyFilter(a, key, ka)[0] == a[0];
        assert KeyFilter(b, key, ka)[0] == b[0];
      }
      forall k ensures KeyFilter(a[1..], key, k) == KeyFilter(b[1..], key, k) {
        var h: seq<T> := if ka == k then [a[0]] else [];
        assert KeyFilter(a, key, k) == h + KeyFilter(a[1..], key, k);
        assert KeyFilter(b, key, k) == h + KeyFilter(b[1..], key, k);
        assert KeyFilter(a, key, k) == KeyFilter(b, key, k);
        assert KeyFilter(a[1..], key, k) == (h + KeyFilter(a[1..], key, k))[|h|..];
        assert KeyFilter(b[1..], key, k) == (h + KeyFilter(b[1..], key, k))[|h|..];
      }
      SortedUnique(a[1..], b[1..], key);
      assert a == [a[0]] + a[1..] && b == [b[0]] + b[1..];
    }
  }

  /** Any list that is sorted by key and keeps the input order among equal
      keys, which is what Python's stable `sorted` and `list.sort` return,
      is `SortBy`'s result. */
  lemma SortByIsStableSort<T>(xs: seq<T>, ys: seq<T>, key: T -> SortKey)
    requires SortedBy(ys, key)
    requires forall k :: KeyFilter(ys, key, k) == KeyFilter(xs, key, k)
    ensures ys == SortBy(xs, key)
  {
    SortBySorted(xs, key);
    forall k ensures KeyFilter(ys, key, k) == KeyFilter(SortBy(xs, key), key, k) {
      SortByStable(xs, key, k);
    }
    SortedUnique(ys, SortBy(xs, key), key);
  }
}
