// Sequence operations the store performs for the controllers: filtering by a
// query, `$sort` on a key, natural (insertion) order of a collection and sums.
module Seqs {

  function Filter<T(!new)>(s: seq<T>, p: T -> bool): (r: seq<T>)
    ensures |r| <= |s|
    ensures forall x :: x in r <==> x in s && p(x)
    ensures multiset(r) <= multiset(s)
  {
    if s == [] then []
    else
      assert s == [s[0]] + s[1..];
      (if p(s[0]) then [s[0]] else []) + Filter(s[1..], p)
  }

  lemma {:induction false} FilterExtensional<T(!new)>(s: seq<T>, p: T -> bool, q: T -> bool)
    requires forall x :: x in s ==> (p(x) <==> q(x))
    ensures Filter(s, p) == Filter(s, q)
  {
    if s != [] {
      FilterExtensional(s[1..], p, q);
    }
  }

  lemma {:induction false} FilterFilter<T(!new)>(s: seq<T>, p: T -> bool, q: T -> bool)
    ensures Filter(Filter(s, p), q) == Filter(s, x => p(x) && q(x))
  {
    if s != [] {
      var pq := x => p(x) && q(x);
      FilterFilter(s[1..], p, q);
      var fp := Filter(s, p);
      if p(s[0]) {
        assert fp == [s[0]] + Filter(s[1..], p);
        assert fp[0] == s[0] && fp[1..] == Filter(s[1..], p);
        assert Filter(fp, q) == (if q(s[0]) then [s[0]] else []) + Filter(fp[1..], q);
      } else {
        assert fp == Filter(s[1..], p);
      }
      assert Filter(s, pq) == (if pq(s[0]) then [s[0]] else []) + Filter(s[1..], pq);
    }
  }

  /** `le` is a total preorder: the shape of a `$sort` specification. */
  ghost predicate TotalPreorder<T(!new)>(le: (T, T) -> bool) {
    && (forall a, b :: le(a, b) || le(b, a))
    && (forall a, b, c :: le(a, b) && le(b, c) ==> le(a, c))
  }

  predicate SortedBy<T>(s: seq<T>, le: (T, T) -> bool) {
    forall i, j :: 0 <= i < j < |s| ==> le(s[i], s[j])
  }

  function Insert<T>(x: T, s: seq<T>, le: (T, T) -> bool): (r: seq<T>)
    ensures multiset(r) == multiset(s) + multiset{x}
    ensures |r| == |s| + 1
  {
    if s == [] then [x]
    else if le(x, s[0]) then [x] + s
    else
      assert s == [s[0]] + s[1..];
      [s[0]] + Insert(x, s[1..], le)
  }

  lemma {:induction false} InsertSorted<T(!new)>(x: T, s: seq<T>, le: (T, T) -> bool)
    requires TotalPreorder(le) && SortedBy(s, le)
    ensures SortedBy(Insert(x, s, le), le)
  {
    if s != [] && !le(x, s[0]) {
      var tail := s[1..];
      assert SortedBy(tail, le);
      InsertSorted(x, tail, le);
      var r := Insert(x, tail, le);
      assert le(s[0], x);
      forall k | 0 <= k < |r| ensures le(s[0], r[k]) {
        assert r[k] in multiset(r);
        if r[k] != x {
          assert r[k] in multiset(tail);
          var j :| 0 <= j < |tail| && tail[j] == r[k];
          assert s[j + 1] == tail[j];
        }
      }
    }
  }

  /** The store's `$sort`: a permutation of the input ordered by `le`. */
  function SortBy<T(!new)>(s: seq<T>, le: (T, T) -> bool): (r: seq<T>)
    ensures multiset(r) == multiset(s) && |r| == |s|
    ensures TotalPreorder(le) ==> SortedBy(r, le)
  {
    if s == [] then []
    else
      var rest := SortBy(s[1..], le);
      assert s == [s[0]] + s[1..];
      assert TotalPreorder(le) ==> SortedBy(Insert(s[0], rest, le), le) by {
        if TotalPreorder(le) { InsertSorted(s[0], rest, le); }
      }
      Insert(s[0], rest, le)
  }

  function Min(a: int, b: int): int { if a <= b then a else b }

  /** `.limit(n)`: at most the first n elements. */
  function Take<T>(s: seq<T>, n: nat): (r: seq<T>)
    ensures |r| == Min(n, |s|) && r == s[..|r|]
    ensures forall x :: x in r ==> x in s
  {
    if n <= |s| then s[..n] else s
  }

  /** In a sorted sequence, an element left out of a prefix does not come before one kept in it. */
  lemma OutsidePrefix<T>(s: seq<T>, n: nat, le: (T, T) -> bool, d: T, e: T)
    requires SortedBy(s, le) && d in s && d !in Take(s, n) && e in Take(s, n)
    ensures le(e, d)
  {
    var t := Take(s, n);
    var j :| 0 <= j < |s| && s[j] == d;
    var i :| 0 <= i < |t| && t[i] == e;
    assert j >= |t|;
    assert s[i] == e;
  }

  /** Sum of a non-negative measure over the elements (`$sum`). */
  function SumBy<T>(s: seq<T>, f: T -> nat): nat {
    if s == [] then 0 else f(s[0]) + SumBy(s[1..], f)
  }

  lemma {:induction false} SumByInsert<T>(x: T, s: seq<T>, le: (T, T) -> bool, f: T -> nat)
    ensures SumBy(Insert(x, s, le), f) == f(x) + SumBy(s, f)
  {
    if s != [] && !le(x, s[0]) {
      SumByInsert(x, s[1..], le, f);
    }
  }

  /** Sorting never changes a sum. */
  lemma {:induction false} SumBySort<T(!new)>(s: seq<T>, le: (T, T) -> bool, f: T -> nat)
    ensures SumBy(SortBy(s, le), f) == SumBy(s, f)
  {
    if s != [] {
      SumBySort(s[1..], le, f);
      SumByInsert(s[0], SortBy(s[1..], le), le, f);
    }
  }

  lemma {:induction false} SumByAppend<T>(a: seq<T>, b: seq<T>, f: T -> nat)
    ensures SumBy(a + b, f) == SumBy(a, f) + SumBy(b, f)
  {
    if a != [] {
      assert (a + b)[0] == a[0];
      assert (a + b)[1..] == a[1..] + b;
      SumByAppend(a[1..], b, f);
    } else {
      assert a + b == b;
    }
  }

  /** `m` is the least element of `s`. */
  predicate IsLeast(s: set<nat>, m: nat) {
    m in s && forall y :: y in s ==> m <= y
  }

  /** The least element of a non-empty set of ids. */
  function MinOf(s: set<nat>): (m: nat)
    requires s != {}
    ensures m in s && forall y :: y in s ==> m <= y
  {
    LeastExists(s);
    var m :| IsLeast(s, m);
    m
  }

  lemma {:induction false} LeastExists(s: set<nat>)
    requires s != {}
    ensures exists m :: IsLeast(s, m)
    decreases |s|
  {
    var x :| x in s;
    var rest := s - {x};
    if rest == {} {
      assert s == {x};
      assert IsLeast(s, x);
    } else {
      LeastExists(rest);
      var m :| IsLeast(rest, m);
      var w := if x < m then x else m;
      forall y | y in s ensures w <= y {
        if y != x { assert y in rest; }
      }
      assert IsLeast(s, w);
    }
  }

  /**
   * The ids of a collection in natural order. ObjectIds grow with insertion
   * time, so ascending id order stands for the store's insertion order.
   */
  function NaturalOrder(s: set<nat>): (r: seq<nat>)
    ensures forall x :: x in r <==> x in s
    ensures |r| == |s|
    ensures Increasing(r)
    decreases |s|
  {
    if s == {} then []
    else
      var m := MinOf(s);
      var rest := NaturalOrder(s - {m});
      ConsIncreasing(m, rest);
      [m] + rest
  }

  predicate Increasing(r: seq<nat>) {
    forall i, j :: 0 <= i < j < |r| ==> r[i] < r[j]
  }

  lemma ConsIncreasing(m: nat, rest: seq<nat>)
    requires Increasing(rest) && forall x :: x in rest ==> m < x
    ensures Increasing([m] + rest)
  {
    var r := [m] + rest;
    forall i, j | 0 <= i < j < |r| ensures r[i] < r[j] {
      assert r[j] == rest[j - 1] && rest[j - 1] in rest;
      if i > 0 { assert r[i] == rest[i - 1]; }
    }
  }

  /** The values of `m` at `ids`, in that order. */
  function Lookup<V>(m: map<nat, V>, ids: seq<nat>): (r: seq<V>)
    requires forall k :: k in ids ==> k in m
    ensures |r| == |ids| && forall i :: 0 <= i < |ids| ==> r[i] == m[ids[i]]
  {
    if ids == [] then [] else [m[ids[0]]] + Lookup(m, ids[1..])
  }

  /** The keys whose values satisfy `p`. */
  function KeysWhere<V>(m: map<nat, V>, p: V -> bool): set<nat> {
    set k | k in m && p(m[k])
  }

  /** Removing a key just inserted under a fresh id restores the map. */
  lemma RemoveUndoesInsert<V>(m: map<nat, V>, k: nat, v: V)
    requires k !in m
    ensures m[k := v] - {k} == m
  {
    var r := m[k := v] - {k};
    assert r.Keys == m.Keys;
  }

  /** Replacing a value by one that `p` judges alike leaves the selected keys as they were. */
  lemma KeysWhereUpdate<V>(m: map<nat, V>, p: V -> bool, k: nat, v: V)
    requires k in m && p(v) == p(m[k])
    ensures KeysWhere(m[k := v], p) == KeysWhere(m, p)
  {
    forall x ensures x in KeysWhere(m[k := v], p) <==> x in KeysWhere(m, p) {
      if x == k {
        assert m[k := v][x] == v;
      }
    }
  }

  /** An unsorted `find(filter)`: the stored values satisfying `p`, in natural order. */
  function ValuesWhere<V(==,!new)>(m: map<nat, V>, p: V -> bool): (r: seq<V>)
    ensures forall v :: v in r <==> v in m.Values && p(v)
    ensures |r| == |KeysWhere(m, p)|
  {
    var ids := NaturalOrder(KeysWhere(m, p));
    LookupSelected(m, ids, p);
    Lookup(m, ids)
  }

  /** `find(filter).sort(order)`: the selected values, ordered by `le`. */
  function SortedWhere<V(==,!new)>(m: map<nat, V>, p: V -> bool, le: (V, V) -> bool): (r: seq<V>)
    ensures forall v :: v in r <==> v in m.Values && p(v)
    ensures |r| == |KeysWhere(m, p)|
    ensures TotalPreorder(le) ==> SortedBy(r, le)
  {
    var all := ValuesWhere(m, p);
    var r := SortBy(all, le);
    SameElements(r, all);
    r
  }

  lemma LookupSelected<V(!new)>(m: map<nat, V>, ids: seq<nat>, p: V -> bool)
    requires forall k :: k in ids <==> k in m && p(m[k])
    ensures forall v :: v in Lookup(m, ids) <==> v in m.Values && p(v)
  {
    var r := Lookup(m, ids);
    forall v | v in r ensures v in m.Values && p(v) {
      var i :| 0 <= i < |r| && r[i] == v;
      assert ids[i] in ids;
    }
    forall v | v in m.Values && p(v) ensures v in r {
      var k :| k in m && m[k] == v;
      var i :| 0 <= i < |ids| && ids[i] == k;
      assert r[i] == v;
    }
  }

  /**
   * Replacing the value under one key changes a sum over distinct keys by
   * exactly the difference of that value's measure, and not at all when the
   * key is not among them.
   */
  lemma {:induction false} SumByLookupUpdate<V>(m: map<nat, V>, ids: seq<nat>, k: nat, v: V, f: V -> nat)
    requires k in m && forall x :: x in ids ==> x in m
    requires forall i, j :: 0 <= i < j < |ids| ==> ids[i] != ids[j]
    ensures k in ids ==>
              SumBy(Lookup(m[k := v], ids), f) + f(m[k]) == SumBy(Lookup(m, ids), f) + f(v)
    ensures k !in ids ==> SumBy(Lookup(m[k := v], ids), f) == SumBy(Lookup(m, ids), f)
  {
    if ids != [] {
      var m' := m[k := v];
      assert Lookup(m', ids)[1..] == Lookup(m', ids[1..]);
      assert Lookup(m, ids)[1..] == Lookup(m, ids[1..]);
      SumByLookupUpdate(m, ids[1..], k, v, f);
      if ids[0] == k {
        assert k !in ids[1..] by {
          forall j | 0 <= j < |ids[1..]| ensures ids[1..][j] != k {
            assert ids[1..][j] == ids[j + 1];
          }
        }
      }
    }
  }

  /** Two permutations of each other have the same elements. */
  lemma SameElements<T>(a: seq<T>, b: seq<T>)
    requires multiset(a) == multiset(b)
    ensures forall x :: x in a <==> x in b
  {
    forall x ensures x in a <==> x in b {
      assert x in a <==> x in multiset(a);
      assert x in b <==> x in multiset(b);
    }
  }
}
