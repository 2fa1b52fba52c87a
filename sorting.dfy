/**
 * Python's `sorted`: a stable sort, here an insertion sort under a total
 * preorder `le` ("`a` may come before `b`"). `sorted(xs, key=k,
 * reverse=True)` is the instance `le(a, b) == k(a) >= k(b)`, since Python
 * keeps equal elements in input order also when reversing.
 */
module Sorting {
  ghost predicate TotalPreorder<T(!new)>(le: (T, T) -> bool) {
    (forall a, b :: le(a, b) || le(b, a))
    && (forall a, b, c :: le(a, b) && le(b, c) ==> le(a, c))
  }

  ghost predicate Sorted<T>(s: seq<T>, le: (T, T) -> bool) {
    forall i, j :: 0 <= i < j < |s| ==> le(s[i], s[j])
  }

  /** The elements of `s` that satisfy `p`, in order. */
  function Keep<T>(s: seq<T>, p: T -> bool): (r: seq<T>)
    ensures |r| <= |s|
  {
    if s == [] then [] else (if p(s[0]) then [s[0]] else []) + Keep(s[1..], p)
  }

  /** Filtering distributes over appending one element. */
  lemma {:induction false} KeepAppend<T>(s: seq<T>, x: T, p: T -> bool)
    ensures Keep(s + [x], p) == Keep(s, p) + (if p(x) then [x] else [])
  {
    if s != [] {
      assert (s + [x])[1..] == s[1..] + [x];
      KeepAppend(s[1..], x, p);
    } else {
      assert s + [x] == [x];
    }
  }

  /** Puts `x` in front of the first element it may precede. */
  function Insert<T>(x: T, s: seq<T>, le: (T, T) -> bool): (r: seq<T>)
    ensures multiset(r) == multiset{x} + multiset(s)
  {
    if s == [] then [x]
    else if le(x, s[0]) then [x] + s
    else
      assert s == [s[0]] + s[1..];
      [s[0]] + Insert(x, s[1..], le)
  }

  function SortBy<T>(s: seq<T>, le: (T, T) -> bool): (r: seq<T>)
    ensures multiset(r) == multiset(s)
  {
    if s == [] then []
    else
      assert s == [s[0]] + s[1..];
      Insert(s[0], SortBy(s[1..], le), le)
  }

  lemma {:induction false} InsertSorted<T(!new)>(x: T, s: seq<T>, le: (T, T) -> bool)
    requires TotalPreorder(le) && Sorted(s, le)
    ensures Sorted(Insert(x, s, le), le)
  {
    if s != [] && !le(x, s[0]) {
      InsertSorted(x, s[1..], le);
      var r := Insert(x, s[1..], le);
      assert le(s[0], x);
      forall y | y in multiset(r) ensures le(s[0], y) {
        assert y == x || y in s[1..];
      }
      forall j | 0 <= j < |r| ensures le(s[0], r[j]) {
        assert r[j] in multiset(r);
      }
    }
  }

  /** The result is ordered by `le` and a permutation of the input. */
  lemma {:induction false} SortBySorted<T(!new)>(s: seq<T>, le: (T, T) -> bool)
    requires TotalPreorder(le)
    ensures Sorted(SortBy(s, le), le)
    ensures multiset(SortBy(s, le)) == multiset(s)
  {
    if s != [] {
      SortBySorted(s[1..], le);
      InsertSorted(s[0], SortBy(s[1..], le), le);
    }
  }

  /**
   * `p` picks out one class of mutually equivalent elements: inside it every
   * two elements are equivalent, and nothing outside is equivalent to
   * anything inside.
   */
  ghost predicate EquivClass<T(!new)>(p: T -> bool, le: (T, T) -> bool) {
    (forall a, b :: p(a) && p(b) ==> le(a, b))
    && (forall a, b :: p(a) && !p(b) ==> !le(b, a) || !le(a, b))
  }

  lemma {:induction false} KeepInsert<T(!new)>(x: T, s: seq<T>, le: (T, T) -> bool, p: T -> bool)
    requires EquivClass(p, le)
    ensures Keep(Insert(x, s, le), p) == if p(x) then [x] + Keep(s, p) else Keep(s, p)
  {
    if s == [] {
    } else if le(x, s[0]) {
      assert ([x] + s)[1..] == s;
    } else {
      assert p(x) ==> !p(s[0]);
      KeepInsert(x, s[1..], le, p);
      assert ([s[0]] + Insert(x, s[1..], le))[1..] == Insert(x, s[1..], le);
    }
  }

  /** Stability: equivalent elements keep their input order. */
  lemma {:induction false} SortByStable<T(!new)>(s: seq<T>, le: (T, T) -> bool, p: T -> bool)
    requires EquivClass(p, le)
    ensures Keep(SortBy(s, le), p) == Keep(s, p)
  {
    if s != [] {
      SortByStable(s[1..], le, p);
      KeepInsert(s[0], SortBy(s[1..], le), le, p);
    }
  }

  /** `sorted(xs, key=key, reverse=True)` */
  function SortDesc<T>(s: seq<T>, key: T -> real): (r: seq<T>)
    ensures multiset(r) == multiset(s)
    ensures |r| == |s|
  {
    var r := SortBy(s, (a, b) => key(a) >= key(b));
    assert |multiset(r)| == |multiset(s)|;
    r
  }

  /** `sorted(xs, key=key)` */
  function SortAsc<T>(s: seq<T>, key: T -> real): (r: seq<T>)
    ensures multiset(r) == multiset(s)
    ensures |r| == |s|
  {
    var r := SortBy(s, (a, b) => key(a) <= key(b));
    assert |multiset(r)| == |multiset(s)|;
    r
  }

  /** Descending by key, and a permutation of the input. */
  lemma SortDescSpec<T(!new)>(s: seq<T>, key: T -> real)
    ensures forall i, j :: 0 <= i < j < |SortDesc(s, key)| ==> key(SortDesc(s, key)[i]) >= key(SortDesc(s, key)[j])
    ensures multiset(SortDesc(s, key)) == multiset(s)
  {
    SortBySorted(s, (a: T, b: T) => key(a) >= key(b));
  }

  /** Elements with equal keys keep their input order. */
  lemma SortDescStable<T(!new)>(s: seq<T>, key: T -> real, v: real)
    ensures Keep(SortDesc(s, key), x => key(x) == v) == Keep(s, x => key(x) == v)
  {
    SortByStable(s, (a: T, b: T) => key(a) >= key(b), x => key(x) == v);
  }

  /** Ascending by key, and a permutation of the input. */
  lemma SortAscSpec<T(!new)>(s: seq<T>, key: T -> real)
    ensures forall i, j :: 0 <= i < j < |SortAsc(s, key)| ==> key(SortAsc(s, key)[i]) <= key(SortAsc(s, key)[j])
    ensures multiset(SortAsc(s, key)) == multiset(s)
  {
    SortBySorted(s, (a: T, b: T) => key(a) <= key(b));
  }

  /** Elements with equal keys keep their input order. */
  lemma SortAscStable<T(!new)>(s: seq<T>, key: T -> real, v: real)
    ensures Keep(SortAsc(s, key), x => key(x) == v) == Keep(s, x => key(x) == v)
  {
    SortByStable(s, (a: T, b: T) => key(a) <= key(b), x => key(x) == v);
  }

  /** A sequence ascending by a key that takes only the values `lo < hi` is its `lo` elements, then its `hi` elements. */
  lemma {:induction false} SortedTwoLevels<T>(r: seq<T>, key: T -> real, lo: real, hi: real, p: T -> bool, q: T -> bool)
    requires lo < hi && forall k :: 0 <= k < |r| ==> key(r[k]) == lo || key(r[k]) == hi
    requires forall x :: p(x) == (key(x) == lo)
    requires forall x :: q(x) == (key(x) == hi)
    requires forall i, j :: 0 <= i < j < |r| ==> key(r[i]) <= key(r[j])
    ensures r == Keep(r, p) + Keep(r, q)
  {
    if r != [] && key(r[0]) == hi {
      forall k | 0 <= k < |r| ensures key(r[k]) == hi {
        if k > 0 { assert key(r[0]) <= key(r[k]); }
      }
      KeepNone(r, p);
      KeepAll(r, q);
    } else if r != [] {
      var t := r[1..];
      assert forall k :: 0 <= k < |t| ==> t[k] == r[k + 1];
      SortedTwoLevels(t, key, lo, hi, p, q);
      assert Keep(r, p) == [r[0]] + Keep(t, p);
      assert Keep(r, q) == Keep(t, q);
      assert r == [r[0]] + t;
    }
  }

  lemma {:induction false} KeepNone<T>(s: seq<T>, p: T -> bool)
    requires forall k :: 0 <= k < |s| ==> !p(s[k])
    ensures Keep(s, p) == []
  {
    if s != [] {
      KeepNone(s[1..], p);
    }
  }

  lemma {:induction false} KeepAll<T>(s: seq<T>, p: T -> bool)
    requires forall k :: 0 <= k < |s| ==> p(s[k])
    ensures Keep(s, p) == s
  {
    if s != [] {
      KeepAll(s[1..], p);
    }
  }

  /**
   * Sorting by a key with two values `lo < hi` lists the `lo` elements
   * (those `p` holds for) in input order, then the `hi` elements (those
   * `q` holds for) in input order.
   */
  lemma SortAscTwoLevels<T(!new)>(s: seq<T>, key: T -> real, lo: real, hi: real, p: T -> bool, q: T -> bool)
    requires lo < hi && forall k :: 0 <= k < |s| ==> key(s[k]) == lo || key(s[k]) == hi
    requires forall x :: p(x) == (key(x) == lo)
    requires forall x :: q(x) == (key(x) == hi)
    ensures SortAsc(s, key) == Keep(s, p) + Keep(s, q)
  {
    var r := SortAsc(s, key);
    SortAscSpec(s, key);
    forall k | 0 <= k < |r| ensures key(r[k]) == lo || key(r[k]) == hi {
      assert r[k] in multiset(s);
      var j :| 0 <= j < |s| && s[j] == r[k];
    }
    SortedTwoLevels(r, key, lo, hi, p, q);
    SortAscKeepsClass(s, key, lo, p);
    SortAscKeepsClass(s, key, hi, q);
  }

  /** The elements `p` picks, all of key `v`, keep their input order. */
  lemma SortAscKeepsClass<T(!new)>(s: seq<T>, key: T -> real, v: real, p: T -> bool)
    requires forall x :: p(x) == (key(x) == v)
    ensures Keep(SortAsc(s, key), p) == Keep(s, p)
  {
    SortByStable(s, (a: T, b: T) => key(a) <= key(b), p);
  }

  /** No element occurs twice. */
  predicate Distinct<T(==)>(s: seq<T>) {
    forall i, j :: 0 <= i < j < |s| ==> s[i] != s[j]
  }

  /** A sequence repeats nothing exactly when each element occurs at most once in its multiset. */
  lemma {:induction false} DistinctCount<T>(s: seq<T>)
    ensures Distinct(s) <==> forall x :: multiset(s)[x] <= 1
  {
    if s != [] {
      var t := s[1..];
      DistinctCount(t);
      assert s == [s[0]] + t;
      assert multiset(s) == multiset{s[0]} + multiset(t);
      if Distinct(s) {
        assert Distinct(t) by {
          forall i, j | 0 <= i < j < |t| ensures t[i] != t[j] {
            assert t[i] == s[i + 1] && t[j] == s[j + 1];
          }
        }
        forall x ensures multiset(s)[x] <= 1 {
          if x == s[0] {
            assert multiset(t)[x] == 0;
          }
        }
      }
      if forall x :: multiset(s)[x] <= 1 {
        forall x ensures multiset(t)[x] <= 1 {
          assert multiset(s)[x] >= multiset(t)[x];
        }
        assert multiset(s)[s[0]] == 1 + multiset(t)[s[0]];
        forall i, j | 0 <= i < j < |s| ensures s[i] != s[j] {
          assert s[j] == t[j - 1];
          if i == 0 {
            assert s[j] in multiset(t);
          } else {
            assert s[i] == t[i - 1];
          }
        }
      }
    }
  }

  /** A permutation of a sequence without repeats has none either. */
  lemma DistinctPerm<T>(a: seq<T>, b: seq<T>)
    requires multiset(a) == multiset(b) && Distinct(a)
    ensures Distinct(b)
  {
    DistinctCount(a);
    DistinctCount(b);
  }

  /** Python's ordering of `str` values: lexicographic by code point. */
  predicate StrLe(a: string, b: string) {
    if a == [] then true
    else if b == [] then false
    else if a[0] != b[0] then a[0] < b[0]
    else StrLe(a[1..], b[1..])
  }

  lemma {:induction false} StrLeTotal(a: string, b: string)
    ensures StrLe(a, b) || StrLe(b, a)
    ensures StrLe(a, b) && StrLe(b, a) ==> a == b
  {
    if a != [] && b != [] && a[0] == b[0] {
      StrLeTotal(a[1..], b[1..]);
      assert a == [a[0]] + a[1..] && b == [b[0]] + b[1..];
    }
  }

  lemma {:induction false} StrLeTrans(a: string, b: string, c: string)
    requires StrLe(a, b) && StrLe(b, c)
    ensures StrLe(a, c)
  {
    if a != [] && b != [] && c != [] && a[0] == b[0] == c[0] {
      StrLeTrans(a[1..], b[1..], c[1..]);
    }
  }

  /** `sorted(names)`: ascending, a permutation, and no two distinct names out of order. */
  function SortStrings(s: seq<string>): (r: seq<string>)
    ensures multiset(r) == multiset(s)
    ensures forall i, j :: 0 <= i < j < |r| ==> StrLe(r[i], r[j])
  {
    StrLePreorder();
    SortBySorted(s, StrLe);
    SortBy(s, StrLe)
  }

  lemma StrLePreorder()
    ensures TotalPreorder(StrLe)
  {
    forall a, b ensures StrLe(a, b) || StrLe(b, a) { StrLeTotal(a, b); }
    forall a, b, c | StrLe(a, b) && StrLe(b, c) ensures StrLe(a, c) { StrLeTrans(a, b, c); }
  }
}
