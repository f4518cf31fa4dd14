/** Sequence vocabulary shared by every page of the tracker: an option type,
    order-preserving filtering, subsequences, duplicate-free lists, integer sums
    and the grouping of a list under a key (the `reduce` into a keyed object that
    the list pages and the insights page perform). */
module Common {

  datatype Option<+T> = None | Some(value: T)

  /** `a` can be obtained from `b` by deleting elements: `a` is an
      order-preserving subsequence of `b`. */
  ghost predicate SubseqOf<T>(a: seq<T>, b: seq<T>)
    decreases |b|
  {
    |a| == 0 || (|b| > 0 && ((a[0] == b[0] && SubseqOf(a[1..], b[1..])) || SubseqOf(a, b[1..])))
  }

  /** Every element of a subsequence occurs in the whole. */
  lemma {:induction false} SubseqOfMembers<T>(a: seq<T>, b: seq<T>)
    requires SubseqOf(a, b)
    ensures forall x :: x in a ==> x in b
    decreases |b|
  {
    if |a| > 0 {
      if a[0] == b[0] && SubseqOf(a[1..], b[1..]) {
        SubseqOfMembers(a[1..], b[1..]);
        assert forall x :: x in a ==> x == a[0] || x in a[1..];
      } else {
        SubseqOfMembers(a, b[1..]);
      }
    }
  }

  /** The elements of `xs` satisfying `p`, in their original order
      (`Array.prototype.filter`). */
  function Filter<T(!new)>(xs: seq<T>, p: T -> bool): (r: seq<T>)
    ensures |r| <= |xs|
    ensures forall x :: x in r <==> x in xs && p(x)
    ensures SubseqOf(r, xs)
    ensures forall x {:trigger multiset(r)[x]} :: multiset(r)[x] == if p(x) then multiset(xs)[x] else 0
    decreases |xs|
  {
    if |xs| == 0 then []
    else
      var rest := Filter(xs[1..], p);
      assert xs == [xs[0]] + xs[1..];
      assert multiset(xs) == multiset{xs[0]} + multiset(xs[1..]);
      if p(xs[0]) then
        assert ([xs[0]] + rest)[1..] == rest;
        [xs[0]] + rest
      else rest
  }

  /** Filtering keeps everything exactly when every element passes. */
  lemma {:induction false} FilterKeepsAll<T(!new)>(xs: seq<T>, p: T -> bool)
    ensures Filter(xs, p) == xs <==> forall x :: x in xs ==> p(x)
    decreases |xs|
  {
    if |xs| > 0 {
      FilterKeepsAll(xs[1..], p);
      if Filter(xs, p) == xs {
        assert |Filter(xs[1..], p)| < |xs| ==> p(xs[0]);
        assert [xs[0]] + Filter(xs[1..], p) == xs ==> Filter(xs[1..], p) == xs[1..];
      }
    }
  }

  /** A list without repeated elements. */
  predicate NoDuplicates<T(==)>(xs: seq<T>) {
    forall i, j :: 0 <= i < j < |xs| ==> xs[i] != xs[j]
  }

  function SumInts(xs: seq<int>): int
    decreases |xs|
  {
    if |xs| == 0 then 0 else xs[0] + SumInts(xs[1..])
  }

  lemma {:induction false} SumIntsSnoc(xs: seq<int>, v: int)
    ensures SumInts(xs + [v]) == SumInts(xs) + v
    decreases |xs|
  {
    if |xs| > 0 {
      assert (xs + [v])[1..] == xs[1..] + [v];
      SumIntsSnoc(xs[1..], v);
    }
  }

  lemma {:induction false} SumIntsUpdate(xs: seq<int>, i: int, v: int)
    requires 0 <= i < |xs|
    ensures SumInts(xs[i := v]) == SumInts(xs) - xs[i] + v
    decreases |xs|
  {
    if i > 0 {
      assert xs[i := v][1..] == xs[1..][i - 1 := v];
      SumIntsUpdate(xs[1..], i - 1, v);
    } else {
      assert xs[i := v][1..] == xs[1..];
    }
  }

  // ---------------------------------------------------------------------------
  // Grouping under a key, groups in order of first appearance of their key
  // ---------------------------------------------------------------------------

  datatype Group<K, V> = Group(key: K, members: seq<V>)

  /** The elements of `xs` whose key is `k`, in their original order. */
  function KeyedBy<K(==), V(!new)>(xs: seq<V>, key: V -> K, k: K): (r: seq<V>)
    ensures forall v :: v in r <==> v in xs && key(v) == k
    ensures SubseqOf(r, xs)
    decreases |xs|
  {
    if |xs| == 0 then []
    else
      var rest := KeyedBy(xs[1..], key, k);
      if key(xs[0]) == k then
        assert ([xs[0]] + rest)[1..] == rest;
        [xs[0]] + rest
      else rest
  }

  lemma {:induction false} KeyedBySnoc<K, V(!new)>(xs: seq<V>, x: V, key: V -> K, k: K)
    ensures KeyedBy(xs + [x], key, k) == KeyedBy(xs, key, k) + (if key(x) == k then [x] else [])
    decreases |xs|
  {
    if |xs| > 0 {
      assert (xs + [x])[1..] == xs[1..] + [x];
      KeyedBySnoc(xs[1..], x, key, k);
    } else {
      assert (xs + [x])[1..] == [];
    }
  }

  lemma {:induction false} KeyedByAbsent<K, V(!new)>(xs: seq<V>, key: V -> K, k: K)
    requires forall v :: v in xs ==> key(v) != k
    ensures KeyedBy(xs, key, k) == []
    decreases |xs|
  {
    if |xs| > 0 {
      assert xs[0] in xs;
      KeyedByAbsent(xs[1..], key, k);
    }
  }

  /** Position of the group holding key `k`, or -1 (a property lookup `acc[k]`). */
  function IndexOfKey<K(==), V(!new)>(gs: seq<Group<K, V>>, k: K): (r: int)
    ensures -1 <= r < |gs|
    ensures r >= 0 ==> gs[r].key == k
    ensures r < 0 ==> forall i :: 0 <= i < |gs| ==> gs[i].key != k
    decreases |gs|
  {
    if |gs| == 0 then -1
    else if gs[|gs| - 1].key == k then |gs| - 1
    else IndexOfKey(gs[..|gs| - 1], k)
  }

  /** One step of the grouping reduce: append `x` to the group of `k`,
      opening that group at the end when the key is new. */
  function Place<K(==), V(!new)>(gs: seq<Group<K, V>>, k: K, x: V): seq<Group<K, V>>
  {
    var i := IndexOfKey(gs, k);
    if i < 0 then gs + [Group(k, [x])]
    else gs[i := Group(k, gs[i].members + [x])]
  }

  predicate HasKey<K(==), V(!new)>(gs: seq<Group<K, V>>, k: K) {
    exists i :: 0 <= i < |gs| && gs[i].key == k
  }

  /** `gs` partitions `xs` by key: distinct keys, every group non-empty and
      holding exactly the elements of its key in input order, every element's
      key present. */
  ghost predicate Partitions<K, V(!new)>(gs: seq<Group<K, V>>, xs: seq<V>, key: V -> K) {
    && (forall i, j :: 0 <= i < j < |gs| ==> gs[i].key != gs[j].key)
    && (forall i :: 0 <= i < |gs| ==> |gs[i].members| > 0 && gs[i].members == KeyedBy(xs, key, gs[i].key))
    && (forall v :: v in xs ==> HasKey(gs, key(v)))
  }

  lemma PlacePartitions<K, V(!new)>(gs: seq<Group<K, V>>, xs: seq<V>, x: V, key: V -> K)
    requires Partitions(gs, xs, key)
    ensures Partitions(Place(gs, key(x), x), xs + [x], key)
  {
    var k := key(x);
    var i := IndexOfKey(gs, k);
    var r := Place(gs, k, x);
    forall j | 0 <= j < |r|
      ensures |r[j].members| > 0 && r[j].members == KeyedBy(xs + [x], key, r[j].key)
    {
      KeyedBySnoc(xs, x, key, r[j].key);
      if j < |gs| && j != i {
        assert r[j] == gs[j];
        assert gs[j].key != k by {
          if i >= 0 { assert gs[i].key == k; }
        }
        assert r[j].members == KeyedBy(xs + [x], key, r[j].key);
      } else if i < 0 {
        assert j == |gs| && r[j] == Group(k, [x]);
        assert forall v :: v in xs ==> key(v) != k;
        KeyedByAbsent(xs, key, k);
        assert r[j].members == KeyedBy(xs + [x], key, r[j].key);
      } else {
        assert j == i && r[j] == Group(k, gs[i].members + [x]);
        assert r[j].members == KeyedBy(xs + [x], key, r[j].key);
      }
    }
    forall v | v in xs + [x]
      ensures HasKey(r, key(v))
    {
      if v == x {
        if i < 0 { assert r[|gs|].key == k; } else { assert r[i].key == k; }
      } else {
        var j :| 0 <= j < |gs| && gs[j].key == key(v);
        assert r[j].key == key(v);
      }
    }
  }

  /** Groups `xs` by `key`; keys in order of first appearance, as in an
      object filled by `reduce` and read back with `Object.entries`. */
  function GroupBy<K(==), V(!new)>(xs: seq<V>, key: V -> K): (gs: seq<Group<K, V>>)
    ensures Partitions(gs, xs, key)
    ensures |gs| <= |xs|
    decreases |xs|
  {
    if |xs| == 0 then []
    else
      var init := xs[..|xs| - 1];
      var last := xs[|xs| - 1];
      assert init + [last] == xs;
      var gs := GroupBy(init, key);
      PlacePartitions(gs, init, last, key);
      Place(gs, key(last), last)
  }

  /** Each element of the input lies in exactly one group: the one of its key. */
  lemma ElementInExactlyOneGroup<K, V(!new)>(xs: seq<V>, key: V -> K, v: V)
    requires v in xs
    ensures exists i :: 0 <= i < |GroupBy(xs, key)| && v in GroupBy(xs, key)[i].members &&
              forall j :: 0 <= j < |GroupBy(xs, key)| && j != i ==> v !in GroupBy(xs, key)[j].members
  {
    var gs := GroupBy(xs, key);
    var i :| 0 <= i < |gs| && gs[i].key == key(v);
    assert v in gs[i].members;
    assert 0 <= i < |gs| && v in gs[i].members && forall j :: 0 <= j < |gs| && j != i ==> v !in gs[j].members;
  }
}
