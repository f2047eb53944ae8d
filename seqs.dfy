/**
 * Sequence operations the store and the dashboards are built from:
 * `filter`, `findIndex`/`find`, and upsert-by-identity.
 */
module Seqs {
  import opened Types

  /** Elements of `s` that satisfy `p`, in their original order. */
  function Filter<T(==,!new)>(s: seq<T>, p: T -> bool): (r: seq<T>)
    ensures |r| <= |s|
    ensures forall i :: 0 <= i < |r| ==> p(r[i])
  {
    if s == [] then []
    else
      var rest := Filter(s[1..], p);
      if p(s[0]) then [s[0]] + rest else rest
  }

  /**
   * Filter keeps every element satisfying `p` as often as it occurs in `s`, and
   * nothing else: the result is a sub-multiset fixed by `p`.
   */
  lemma {:induction false} FilterMultiset<T(!new)>(s: seq<T>, p: T -> bool)
    ensures forall x :: multiset(Filter(s, p))[x] == if p(x) then multiset(s)[x] else 0
  {
    if s != [] {
      FilterMultiset(s[1..], p);
      assert s == [s[0]] + s[1..];
    }
  }

  /** Number of elements of `s` satisfying `p` (`s.filter(p).length`). */
  function Count<T(==,!new)>(s: seq<T>, p: T -> bool): nat {
    |Filter(s, p)|
  }

  lemma {:induction false} FilterAppend<T(!new)>(s: seq<T>, t: seq<T>, p: T -> bool)
    ensures Filter(s + t, p) == Filter(s, p) + Filter(t, p)
  {
    if s == [] {
      assert s + t == t;
    } else {
      assert (s + t)[1..] == s[1..] + t;
      FilterAppend(s[1..], t, p);
    }
  }

  /** Appending one element adds it at the end of the filtered list exactly when it satisfies `p`. */
  lemma FilterSnoc<T(!new)>(s: seq<T>, x: T, p: T -> bool)
    ensures Filter(s + [x], p) == Filter(s, p) + (if p(x) then [x] else [])
  {
    FilterAppend(s, [x], p);
    assert Filter([x], p) == (if p(x) then [x] else []) by {
      assert [x][1..] == [];
    }
  }

  lemma {:induction false} FilterAll<T(!new)>(s: seq<T>, p: T -> bool)
    requires forall i :: 0 <= i < |s| ==> p(s[i])
    ensures Filter(s, p) == s
  {
    if s != [] {
      FilterAll(s[1..], p);
    }
  }

  /**
   * Every prefix of a filtered list is the filter of some prefix of the
   * input: taking the first `k` matches stops somewhere in `s`.
   */
  lemma {:induction false} FilterPrefix<T(!new)>(s: seq<T>, p: T -> bool, k: nat)
    requires k <= |Filter(s, p)|
    ensures exists n :: 0 <= n <= |s| && Filter(s[..n], p) == Filter(s, p)[..k]
    decreases |s|
  {
    if k == |Filter(s, p)| {
      assert s[..|s|] == s;
    } else {
      var t, x := s[..|s| - 1], s[|s| - 1];
      assert s == t + [x];
      FilterSnoc(t, x, p);
      FilterPrefix(t, p, k);
      var n :| 0 <= n <= |t| && Filter(t[..n], p) == Filter(t, p)[..k];
      assert t[..n] == s[..n];
    }
  }

  /** Filtering by `p` and then by `q` keeps what satisfies both. */
  lemma {:induction false} FilterFilter<T(!new)>(s: seq<T>, p: T -> bool, q: T -> bool, pq: T -> bool)
    requires forall x :: pq(x) == (p(x) && q(x))
    ensures Filter(Filter(s, p), q) == Filter(s, pq)
  {
    if s != [] {
      FilterFilter(s[1..], p, q, pq);
    }
  }

  /**
   * Two conditions that are each other's negation on the elements of a
   * sequence split it: counts add up, nothing is lost or duplicated.
   */
  lemma FilterPartition<T(!new)>(s: seq<T>, p: T -> bool, q: T -> bool)
    requires forall i :: 0 <= i < |s| ==> q(s[i]) == !p(s[i])
    ensures multiset(Filter(s, p)) + multiset(Filter(s, q)) == multiset(s)
    ensures Count(s, p) + Count(s, q) == |s|
  {
    var a, b := multiset(Filter(s, p)), multiset(Filter(s, q));
    FilterMultiset(s, p);
    FilterMultiset(s, q);
    assert a + b == multiset(s) by {
      forall x ensures (a + b)[x] == multiset(s)[x] {
        if x in s {
          var i :| 0 <= i < |s| && s[i] == x;
          assert q(x) == !p(x);
        }
      }
    }
    calc {
      |Filter(s, p)| + |Filter(s, q)|;
      |a| + |b|;
      |a + b|;
      |multiset(s)|;
      |s|;
    }
  }

  /** Count is monotone in the condition. */
  lemma {:induction false} CountMono<T(!new)>(s: seq<T>, p: T -> bool, q: T -> bool)
    requires forall x :: p(x) ==> q(x)
    ensures Count(s, p) <= Count(s, q)
  {
    if s != [] {
      CountMono(s[1..], p, q);
    }
  }

  // ---------------------------------------------------------------------------
  // findIndex / find

  /** Index of the first element satisfying `p`, or -1 (`Array.prototype.findIndex`). */
  function IndexWhere<T>(s: seq<T>, p: T -> bool): (i: int)
    ensures -1 <= i < |s|
    ensures 0 <= i ==> p(s[i]) && forall j :: 0 <= j < i ==> !p(s[j])
    ensures i < 0 ==> forall j :: 0 <= j < |s| ==> !p(s[j])
  {
    if s == [] then -1
    else if p(s[0]) then 0
    else
      var k := IndexWhere(s[1..], p);
      if k < 0 then -1 else k + 1
  }

  /** First element satisfying `p` (`Array.prototype.find`). */
  function Find<T>(s: seq<T>, p: T -> bool): (r: Option<T>)
    ensures r.Some? <==> exists i :: 0 <= i < |s| && p(s[i])
    ensures r.Some? ==> p(r.value) && r.value == s[IndexWhere(s, p)]
  {
    var i := IndexWhere(s, p);
    if i < 0 then None else Some(s[i])
  }

  /** The loop behind `findIndex`: scans from the front and stops at the first hit. */
  method FindIndex<T>(s: seq<T>, p: T -> bool) returns (i: int)
    ensures i == IndexWhere(s, p)
  {
    i := 0;
    while i < |s|
      invariant 0 <= i <= |s|
      invariant forall j :: 0 <= j < i ==> !p(s[j])
    {
      if p(s[i]) {
        return;
      }
      i := i + 1;
    }
    i := -1;
  }

  lemma IndexWhereAppend<T>(s: seq<T>, t: seq<T>, p: T -> bool)
    requires IndexWhere(s, p) < 0
    ensures IndexWhere(s + t, p) == (var k := IndexWhere(t, p); if k < 0 then -1 else |s| + k)
  {
    var k := IndexWhere(t, p);
    var n := IndexWhere(s + t, p);
    assert forall j :: 0 <= j < |s| ==> (s + t)[j] == s[j];
    assert forall j :: 0 <= j < |t| ==> (s + t)[|s| + j] == t[j];
    if n >= 0 {
      assert n >= |s|;
      assert p(t[n - |s|]);
    }
  }

  // ---------------------------------------------------------------------------
  // Identity keys and upsert

  /** The condition "has identity `id` under `key`". */
  function HasKey<T>(key: T -> Id, id: Id): T -> bool {
    x => key(x) == id
  }

  predicate UniqueKeys<T>(s: seq<T>, key: T -> Id) {
    forall i, j :: 0 <= i < j < |s| ==> key(s[i]) != key(s[j])
  }

  predicate KeyAbsent<T>(s: seq<T>, key: T -> Id, id: Id) {
    forall i :: 0 <= i < |s| ==> key(s[i]) != id
  }

  /** With unique keys, the first index carrying a key is the only one. */
  lemma IndexOfUniqueKey<T>(s: seq<T>, key: T -> Id, k: int)
    requires UniqueKeys(s, key) && 0 <= k < |s|
    ensures IndexWhere(s, HasKey(key, key(s[k]))) == k
  {
    var i := IndexWhere(s, HasKey(key, key(s[k])));
    assert HasKey(key, key(s[k]))(s[k]);
  }

  /**
   * Save by identity: replace the first element with the same key, or append.
   * This is the `findIndex` / overwrite-or-`push` pattern of the store.
   */
  function Upsert<T>(s: seq<T>, x: T, key: T -> Id): (r: seq<T>)
    ensures x in r
    ensures |r| == |s| || r == s + [x]
  {
    var i := IndexWhere(s, HasKey(key, key(x)));
    if i >= 0 then assert s[i := x][i] == x; s[i := x] else s + [x]
  }

  /** An existing key is replaced in place at its first position; the length is unchanged. */
  lemma UpsertExisting<T>(s: seq<T>, x: T, key: T -> Id)
    requires !KeyAbsent(s, key, key(x))
    ensures var i := IndexWhere(s, HasKey(key, key(x)));
      0 <= i < |s| && Upsert(s, x, key) == s[i := x]
      && |Upsert(s, x, key)| == |s|
      && forall j :: 0 <= j < |s| && j != i ==> Upsert(s, x, key)[j] == s[j]
  {
    var j :| 0 <= j < |s| && key(s[j]) == key(x);
    assert HasKey(key, key(x))(s[j]);
  }

  /** A new key is appended at the end; everything before it stays. */
  lemma UpsertNew<T>(s: seq<T>, x: T, key: T -> Id)
    requires KeyAbsent(s, key, key(x))
    ensures Upsert(s, x, key) == s + [x]
  {
    assert forall j :: 0 <= j < |s| ==> !HasKey(key, key(x))(s[j]);
  }

  /** After saving `x`, looking up its key finds `x`. */
  lemma FindAfterUpsert<T>(s: seq<T>, x: T, key: T -> Id)
    ensures Find(Upsert(s, x, key), HasKey(key, key(x))) == Some(x)
  {
    var p := HasKey(key, key(x));
    var i := IndexWhere(s, p);
    var s' := Upsert(s, x, key);
    assert p(x);
    if i >= 0 {
      assert s' == s[i := x];
      var k := IndexWhere(s', p);
      assert k <= i by { assert p(s'[i]); }
      assert forall j :: 0 <= j < i ==> s'[j] == s[j];
    } else {
      assert s' == s + [x];
      IndexWhereAppend(s, [x], p);
    }
  }

  /** A property every element has survives saving one more element that has it. */
  lemma UpsertKeepsAll<T>(s: seq<T>, x: T, key: T -> Id, ok: T -> bool)
    requires forall i :: 0 <= i < |s| ==> ok(s[i])
    requires ok(x)
    ensures forall i :: 0 <= i < |Upsert(s, x, key)| ==> ok(Upsert(s, x, key)[i])
  {
    var s' := Upsert(s, x, key);
    forall i | 0 <= i < |s'| ensures ok(s'[i]) {
      if i < |s| && s'[i] != x {
        assert s'[i] == s[i];
      }
    }
  }

  /** Upsert keeps identities unique. */
  lemma UpsertKeepsUnique<T>(s: seq<T>, x: T, key: T -> Id)
    requires UniqueKeys(s, key)
    ensures UniqueKeys(Upsert(s, x, key), key)
  {
    var i := IndexWhere(s, HasKey(key, key(x)));
    var s' := Upsert(s, x, key);
    if i >= 0 {
      forall a, b | 0 <= a < b < |s'| ensures key(s'[a]) != key(s'[b]) {
        if a == i || b == i {
          assert key(s'[i]) == key(s[i]);
        }
      }
    } else {
      forall a, b | 0 <= a < b < |s'| ensures key(s'[a]) != key(s'[b]) {
        if b == |s| {
          assert !HasKey(key, key(x))(s[a]);
        }
      }
    }
  }
}
