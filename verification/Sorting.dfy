/** `g_list_sort`: a stable sort by key. */
module Sorting {

  ghost predicate TotalPreorder<K(!new)>(le: (K, K) -> bool) {
    && (forall x, y :: le(x, y) || le(y, x))
    && (forall x, y, z :: le(x, y) && le(y, z) ==> le(x, z))
  }

  ghost predicate Sorted<K, T>(s: seq<(K, T)>, le: (K, K) -> bool) {
    forall i, j | 0 <= i < j < |s| :: le(s[i].0, s[j].0)
  }

  function Insert<K, T>(x: (K, T), s: seq<(K, T)>, le: (K, K) -> bool): seq<(K, T)> {
    if s == [] || le(x.0, s[0].0) then [x] + s else [s[0]] + Insert(x, s[1..], le)
  }

  function Sort<K, T>(s: seq<(K, T)>, le: (K, K) -> bool): seq<(K, T)> {
    if s == [] then [] else Insert(s[0], Sort(s[1..], le), le)
  }

  /** The elements whose key is equivalent to `k`, in their order in `s`. */
  ghost function Class<K, T>(s: seq<(K, T)>, k: K, le: (K, K) -> bool): seq<(K, T)> {
    if s == [] then []
    else (if le(s[0].0, k) && le(k, s[0].0) then [s[0]] else []) + Class(s[1..], k, le)
  }

  lemma {:induction false} InsertSorts<K(!new), T>(x: (K, T), s: seq<(K, T)>, le: (K, K) -> bool)
    requires TotalPreorder(le) && Sorted(s, le)
    ensures Sorted(Insert(x, s, le), le)
    ensures multiset(Insert(x, s, le)) == multiset(s) + multiset{x}
  {
    if s != [] && !le(x.0, s[0].0) {
      InsertSorts(x, s[1..], le);
      assert s == [s[0]] + s[1..];
      var r := Insert(x, s[1..], le);
      forall y | y in r
        ensures le(s[0].0, y.0)
      {
        assert y in multiset(r);
        assert y in s[1..] || y == x;
      }
    } else {
      assert [x] + s == Insert(x, s, le);
      forall i, j | 0 <= i < j < |[x] + s|
        ensures le(([x] + s)[i].0, ([x] + s)[j].0)
      {
        if i == 0 && 1 < j {
          assert le(s[0].0, s[j - 1].0);
        }
      }
    }
  }

  lemma {:induction false} InsertClass<K(!new), T>(x: (K, T), s: seq<(K, T)>, k: K, le: (K, K) -> bool)
    requires TotalPreorder(le) && Sorted(s, le)
    ensures Class(Insert(x, s, le), k, le) == Class([x] + s, k, le)
  {
    assert ([x] + s)[1..] == s;
    if s != [] && !le(x.0, s[0].0) {
      InsertClass(x, s[1..], k, le);
      var r := Insert(x, s[1..], le);
      assert ([s[0]] + r)[1..] == r;
      assert ([x] + s[1..])[1..] == s[1..];
    }
  }

  /** What every caller uses: sorted, a permutation, and equivalent elements keep their order. */
  lemma {:induction false} SortIsStable<K(!new), T>(s: seq<(K, T)>, le: (K, K) -> bool)
    requires TotalPreorder(le)
    ensures Sorted(Sort(s, le), le)
    ensures multiset(Sort(s, le)) == multiset(s)
    ensures forall k :: Class(Sort(s, le), k, le) == Class(s, k, le)
  {
    if s != [] {
      var r := Sort(s[1..], le);
      SortIsStable(s[1..], le);
      InsertSorts(s[0], r, le);
      assert s == [s[0]] + s[1..];
      forall k
        ensures Class(Sort(s, le), k, le) == Class(s, k, le)
      {
        InsertClass(s[0], r, k, le);
        assert ([s[0]] + r)[1..] == r;
      }
    }
  }

  function Mapped<K, T, U>(s: seq<(K, T)>, f: T -> U): (r: seq<U>)
    ensures |r| == |s|
    ensures forall i | 0 <= i < |s| :: r[i] == f(s[i].1)
  {
    seq(|s|, i requires 0 <= i < |s| => f(s[i].1))
  }

  function Seconds<K, T>(s: seq<(K, T)>): (r: seq<T>)
    ensures |r| == |s|
    ensures forall i | 0 <= i < |s| :: r[i] == s[i].1
  {
    seq(|s|, i requires 0 <= i < |s| => s[i].1)
  }

  lemma {:induction false} InsertMapped<K, T, U>(x: (K, T), s: seq<(K, T)>, le: (K, K) -> bool, f: T -> U)
    ensures multiset(Mapped(Insert(x, s, le), f)) == multiset(Mapped(s, f)) + multiset{f(x.1)}
  {
    if s == [] || le(x.0, s[0].0) {
      assert Mapped([x] + s, f) == [f(x.1)] + Mapped(s, f);
    } else {
      InsertMapped(x, s[1..], le, f);
      assert Mapped(s, f) == [f(s[0].1)] + Mapped(s[1..], f);
      assert Mapped(Insert(x, s, le), f) == [f(s[0].1)] + Mapped(Insert(x, s[1..], le), f);
    }
  }

  /** Any attribute of the sorted elements is permuted along with them. */
  lemma {:induction false} SortMapped<K, T, U>(s: seq<(K, T)>, le: (K, K) -> bool, f: T -> U)
    ensures multiset(Mapped(Sort(s, le), f)) == multiset(Mapped(s, f))
  {
    if s != [] {
      SortMapped(s[1..], le, f);
      InsertMapped(s[0], Sort(s[1..], le), le, f);
      assert Mapped(s, f) == [f(s[0].1)] + Mapped(s[1..], f);
    }
  }

  lemma Permuted<T>(a: seq<T>, b: seq<T>)
    requires multiset(a) == multiset(b)
    ensures |a| == |b|
    ensures forall i | 0 <= i < |a| :: a[i] in b
    ensures forall i | 0 <= i < |b| :: b[i] in a
  {
    assert |a| == |multiset(a)| == |multiset(b)| == |b|;
    forall i | 0 <= i < |a|
      ensures a[i] in b
    {
      assert a[i] in multiset(a);
    }
    forall i | 0 <= i < |b|
      ensures b[i] in a
    {
      assert b[i] in multiset(b);
    }
  }

  predicate Distinct<T(==)>(s: seq<T>) {
    forall i, j | 0 <= i < j < |s| :: s[i] != s[j]
  }

  lemma {:induction false} DistinctThenOnce<T>(s: seq<T>)
    requires Distinct(s)
    ensures forall x :: multiset(s)[x] <= 1
  {
    if s != [] {
      assert s == [s[0]] + s[1..];
      DistinctThenOnce(s[1..]);
      assert s[0] !in s[1..];
    }
  }

  lemma {:induction false} OnceThenDistinct<T>(s: seq<T>)
    requires forall x :: multiset(s)[x] <= 1
    ensures Distinct(s)
  {
    if s != [] {
      assert s == [s[0]] + s[1..];
      assert multiset(s) == multiset{s[0]} + multiset(s[1..]);
      forall x
        ensures multiset(s[1..])[x] <= 1 && (x in s[1..] ==> x != s[0])
      {
        assert multiset(s)[x] <= 1;
        assert x in s[1..] ==> multiset(s[1..])[x] >= 1;
      }
      var t := s[1..];
      OnceThenDistinct(t);
      forall i, j | 0 <= i < j < |s|
        ensures s[i] != s[j]
      {
        assert s[j] == t[j - 1] && t[j - 1] in t;
      }
    }
  }

  lemma PermutedDistinct<T>(a: seq<T>, b: seq<T>)
    requires multiset(a) == multiset(b)
    ensures Distinct(a) <==> Distinct(b)
  {
    if Distinct(a) {
      DistinctThenOnce(a);
      OnceThenDistinct(b);
    }
    if Distinct(b) {
      DistinctThenOnce(b);
      OnceThenDistinct(a);
    }
  }
}
