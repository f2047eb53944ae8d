/**
 * Stable sorting by a two-level integer key, the model of `Array.prototype.sort`
 * with the comparators the dashboards pass (a difference of ranks, then a
 * difference of timestamps). Descending timestamps use the negated timestamp
 * as the minor key.
 */
module Sorting {
  import opened Seqs

  /** Lexicographic sort key: `major` first, `minor` breaks ties. */
  datatype SortKey = SortKey(major: int, minor: int)

  predicate KeyLt(a: SortKey, b: SortKey) {
    a.major < b.major || (a.major == b.major && a.minor < b.minor)
  }

  predicate KeyLe(a: SortKey, b: SortKey) {
    a.major < b.major || (a.major == b.major && a.minor <= b.minor)
  }

  predicate SortedBy<T>(s: seq<T>, key: T -> SortKey) {
    forall i, j :: 0 <= i < j < |s| ==> KeyLe(key(s[i]), key(s[j]))
  }

  /** Inserts `x` before the first element whose key is not smaller than its own. */
  function Insert<T(==,!new)>(x: T, s: seq<T>, key: T -> SortKey): (r: seq<T>)
    requires SortedBy(s, key)
    ensures SortedBy(r, key)
    ensures multiset(r) == multiset(s) + multiset{x}
    ensures forall y :: y in r <==> y in s || y == x
  {
    if s == [] then [x]
    else if KeyLt(key(s[0]), key(x)) then
      var rest := Insert(x, s[1..], key);
      assert s == [s[0]] + s[1..];
      assert forall j :: 0 <= j < |rest| ==> KeyLe(key(s[0]), key(rest[j])) by {
        forall j | 0 <= j < |rest| ensures KeyLe(key(s[0]), key(rest[j])) {
          assert rest[j] in rest;
        }
      }
      [s[0]] + rest
    else
      [x] + s
  }

  /** Insertion sort: stable, so equal keys keep their input order. */
  function SortBy<T(==,!new)>(s: seq<T>, key: T -> SortKey): (r: seq<T>)
    ensures SortedBy(r, key)
    ensures multiset(r) == multiset(s)
    ensures |r| == |s|
  {
    if s == [] then []
    else
      assert s == [s[0]] + s[1..];
      Insert(s[0], SortBy(s[1..], key), key)
  }

  /** The elements of one key class, as a condition. */
  function KeyIs<T>(key: T -> SortKey, k: SortKey): T -> bool {
    y => key(y) == k
  }

  lemma FilterSingleton<T(!new)>(x: T, p: T -> bool)
    ensures Filter([x], p) == if p(x) then [x] else []
  {
    assert [x][1..] == [];
  }

  lemma {:induction false} InsertKeepsClassOrder<T(!new)>(x: T, s: seq<T>, key: T -> SortKey, k: SortKey)
    requires SortedBy(s, key)
    decreases |s|, 1
    ensures Filter(Insert(x, s, key), KeyIs(key, k))
      == (if key(x) == k then [x] else []) + Filter(s, KeyIs(key, k))
  {
    var p := KeyIs(key, k);
    FilterSingleton(x, p);
    if s == [] {
    } else if KeyLt(key(s[0]), key(x)) {
      InsertAfterHead(x, s, key, k);
    } else {
      FilterAppend([x], s, p);
    }
  }

  lemma {:induction false} InsertAfterHead<T(!new)>(x: T, s: seq<T>, key: T -> SortKey, k: SortKey)
    requires SortedBy(s, key) && s != [] && KeyLt(key(s[0]), key(x))
    ensures Filter(Insert(x, s, key), KeyIs(key, k))
      == (if key(x) == k then [x] else []) + Filter(s, KeyIs(key, k))
    decreases |s|, 0
  {
    var p := KeyIs(key, k);
    var rest := Insert(x, s[1..], key);
    var head := if key(x) == k then [x] else [];
    var a, b := Filter([s[0]], p), Filter(s[1..], p);
    assert Filter(Insert(x, s, key), p) == a + (head + b) by {
      assert Insert(x, s, key) == [s[0]] + rest;
      InsertKeepsClassOrder(x, s[1..], key, k);
      FilterAppend([s[0]], rest, p);
    }
    assert Filter(s, p) == a + b by {
      assert s == [s[0]] + s[1..];
      FilterAppend([s[0]], s[1..], p);
    }
    assert a + (head + b) == head + (a + b) by {
      FilterSingleton(s[0], p);
      if key(x) == k {
        assert !p(s[0]);
        assert a == [];
        assert a + (head + b) == head + b;
        assert head + (a + b) == head + b;
      } else {
        assert head == [];
        assert a + (head + b) == a + b;
        assert head + (a + b) == a + b;
      }
    }
  }

  /** Stability: within each key class the sorted output keeps the input order. */
  lemma {:induction false} SortIsStable<T(!new)>(s: seq<T>, key: T -> SortKey, k: SortKey)
    ensures Filter(SortBy(s, key), KeyIs(key, k)) == Filter(s, KeyIs(key, k))
  {
    if s != [] {
      var p := KeyIs(key, k);
      SortIsStable(s[1..], key, k);
      InsertKeepsClassOrder(s[0], SortBy(s[1..], key), key, k);
      assert s == [s[0]] + s[1..];
      FilterAppend([s[0]], s[1..], p);
    }
  }

  /** Sorting an already sorted sequence leaves it as it is. */
  lemma {:induction false} SortSorted<T(!new)>(s: seq<T>, key: T -> SortKey)
    requires SortedBy(s, key)
    ensures SortBy(s, key) == s
  {
    if s != [] {
      SortSorted(s[1..], key);
      assert SortBy(s[1..], key) == s[1..];
      if s[1..] != [] {
        assert KeyLe(key(s[0]), key(s[1]));
      }
    }
  }
}
