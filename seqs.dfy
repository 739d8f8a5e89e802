/** Sequence helpers that stand for the pandas building blocks the scripts use:
    boolean-mask filtering, `Series.unique()` / the keys of `value_counts()`
    (first-appearance deduplication), and a stable sort by an integer key. */
module Seqs {
  import opened Wrappers

  predicate AllDistinct<T(==)>(s: seq<T>) {
    forall i, j :: 0 <= i < j < |s| ==> s[i] != s[j]
  }

  /** Keeps the elements satisfying `p`, in their original order (a boolean mask). */
  function Filter<T(!new)>(s: seq<T>, p: T -> bool): (r: seq<T>)
    ensures |r| <= |s|
    ensures forall x :: x in r <==> x in s && p(x)
    decreases |s|
  {
    if s == [] then []
    else if p(s[0]) then [s[0]] + Filter(s[1..], p)
    else Filter(s[1..], p)
  }

  lemma {:induction false} FilterAppend<T(!new)>(a: seq<T>, b: seq<T>, p: T -> bool)
    ensures Filter(a + b, p) == Filter(a, p) + Filter(b, p)
    decreases |a|
  {
    if a == [] {
      assert a + b == b;
    } else {
      assert (a + b)[1..] == a[1..] + b;
      FilterAppend(a[1..], b, p);
    }
  }

  lemma {:induction false} FilterDistinct<T(!new)>(s: seq<T>, p: T -> bool)
    requires AllDistinct(s)
    ensures AllDistinct(Filter(s, p))
    decreases |s|
  {
    if s != [] {
      FilterDistinct(s[1..], p);
      assert s[0] !in s[1..];
    }
  }

  /** Number of occurrences of `x` in `s`. */
  function Occurrences<T(==)>(s: seq<T>, x: T): nat
    decreases |s|
  {
    if s == [] then 0
    else (if s[0] == x then 1 else 0) + Occurrences(s[1..], x)
  }

  lemma {:induction false} OccurrencesOfDistinct<T>(s: seq<T>, x: T)
    requires AllDistinct(s)
    ensures Occurrences(s, x) == if x in s then 1 else 0
    decreases |s|
  {
    if s != [] {
      OccurrencesOfDistinct(s[1..], x);
      assert s[0] !in s[1..];
    }
  }

  /** The distinct elements of `s` in order of first appearance (`Series.unique()`). */
  function Dedup<T(==,!new)>(s: seq<T>): (r: seq<T>)
    ensures forall x :: x in r <==> x in s
    ensures AllDistinct(r)
    decreases |s|
  {
    if s == [] then []
    else
      var d := Dedup(s[..|s| - 1]);
      assert forall x :: x in s <==> x in s[..|s| - 1] || x == s[|s| - 1];
      if s[|s| - 1] in d then d else d + [s[|s| - 1]]
  }

  /** The position of the first occurrence of `x` in `s`. */
  function FirstIndex<T(==)>(s: seq<T>, x: T): (r: nat)
    requires x in s
    ensures r < |s| && s[r] == x
    ensures forall i :: 0 <= i < r ==> s[i] != x
  {
    IndexOf(s, x).value
  }

  lemma FirstIndexOfOld<T>(p: seq<T>, y: T, x: T)
    requires x in p
    ensures FirstIndex(p + [y], x) == FirstIndex(p, x)
  {
    var k, v := FirstIndex(p, x), FirstIndex(p + [y], x);
    assert (p + [y])[k] == x;
    assert v <= k;
    assert p[v] == (p + [y])[v];
  }

  lemma FirstIndexOfNew<T>(p: seq<T>, y: T)
    requires y !in p
    ensures FirstIndex(p + [y], y) == |p|
  {
  }

  /** `unique()` lists the values in the order of their first appearance. */
  lemma {:induction false} DedupOrder<T(!new)>(s: seq<T>)
    ensures forall i, j :: 0 <= i < j < |Dedup(s)| ==>
      FirstIndex(s, Dedup(s)[i]) < FirstIndex(s, Dedup(s)[j])
    decreases |s|
  {
    if s != [] {
      var p, y := s[..|s| - 1], s[|s| - 1];
      assert s == p + [y];
      var d := Dedup(p);
      DedupOrder(p);
      var r := Dedup(s);
      assert r == if y in d then d else d + [y];
      if y !in d {
        FirstIndexOfNew(p, y);
      }
      forall i, j | 0 <= i < j < |r|
        ensures FirstIndex(s, r[i]) < FirstIndex(s, r[j])
      {
        assert r[i] == d[i];
        FirstIndexOfOld(p, y, d[i]);
        if j < |d| {
          assert r[j] == d[j];
          FirstIndexOfOld(p, y, d[j]);
          assert FirstIndex(p, d[i]) < FirstIndex(p, d[j]);
        } else {
          assert r[j] == y && y !in p;
          assert FirstIndex(s, y) == |p|;
        }
      }
    }
  }

  /** `f` applied to every element, in order. */
  function Map<T, U>(s: seq<T>, f: T -> U): (r: seq<U>)
    ensures |r| == |s|
    ensures forall k :: 0 <= k < |s| ==> r[k] == f(s[k])
  {
    seq(|s|, k requires 0 <= k < |s| => f(s[k]))
  }

  lemma MapCons<T, U>(x: T, s: seq<T>, f: T -> U)
    ensures Map([x] + s, f) == [f(x)] + Map(s, f)
  {
    var a, b := Map([x] + s, f), [f(x)] + Map(s, f);
    assert |a| == |b|;
    forall k | 0 <= k < |a|
      ensures a[k] == b[k]
    {
      if k > 0 {
        assert ([x] + s)[k] == s[k - 1];
      }
    }
  }

  ghost predicate SortedBy<T>(s: seq<T>, key: T -> int) {
    forall i, j :: 0 <= i < j < |s| ==> key(s[i]) <= key(s[j])
  }

  /** Inserts `x` before the first element whose key is larger (stable). */
  function Insert<T(!new)>(x: T, s: seq<T>, key: T -> int): (r: seq<T>)
    requires SortedBy(s, key)
    ensures SortedBy(r, key)
    ensures multiset(r) == multiset(s) + multiset{x}
    decreases |s|
  {
    if s == [] then [x]
    else if key(x) < key(s[0]) then [x] + s
    else
      var t := Insert(x, s[1..], key);
      assert s == [s[0]] + s[1..];
      InsertHeadBound(x, s, key, t);
      [s[0]] + t
  }

  lemma InsertHeadBound<T(!new)>(x: T, s: seq<T>, key: T -> int, t: seq<T>)
    requires s != [] && SortedBy(s, key) && key(s[0]) <= key(x)
    requires SortedBy(t, key) && multiset(t) == multiset(s[1..]) + multiset{x}
    ensures SortedBy([s[0]] + t, key)
  {
    forall k | 0 <= k < |t| ensures key(s[0]) <= key(t[k]) {
      assert t[k] in multiset(t);
      if t[k] != x {
        assert t[k] in multiset(s[1..]);
        var m :| 0 <= m < |s[1..]| && s[1..][m] == t[k];
        assert s[m + 1] == t[k];
      }
    }
  }

  /** Stable insertion sort by ascending key. */
  function SortBy<T(!new)>(s: seq<T>, key: T -> int): (r: seq<T>)
    ensures SortedBy(r, key)
    ensures multiset(r) == multiset(s)
    decreases |s|
  {
    if s == [] then []
    else
      assert s == s[..|s| - 1] + [s[|s| - 1]];
      Insert(s[|s| - 1], SortBy(s[..|s| - 1], key), key)
  }

  lemma SortByKeepsElements<T(!new)>(s: seq<T>, key: T -> int)
    ensures forall x :: x in SortBy(s, key) <==> x in s
    ensures AllDistinct(s) ==> AllDistinct(SortBy(s, key))
  {
    var r := SortBy(s, key);
    assert forall x :: x in r <==> x in multiset(r);
    assert forall x :: x in s <==> x in multiset(s);
    if AllDistinct(s) {
      forall x | x in multiset(s) ensures multiset(s)[x] == 1 {
        OccurrencesMultiset(s, x);
        OccurrencesOfDistinct(s, x);
      }
      forall i, j | 0 <= i < j < |r| ensures r[i] != r[j] {
        if r[i] == r[j] {
          DoubleOccurrence(r, i, j);
          assert false;
        }
      }
    }
  }

  lemma {:induction false} OccurrencesMultiset<T>(s: seq<T>, x: T)
    ensures Occurrences(s, x) == multiset(s)[x]
    decreases |s|
  {
    if s != [] {
      assert s == [s[0]] + s[1..];
      OccurrencesMultiset(s[1..], x);
    }
  }

  lemma {:induction false} DoubleOccurrence<T>(s: seq<T>, i: int, j: int)
    requires 0 <= i < j < |s| && s[i] == s[j]
    ensures multiset(s)[s[i]] >= 2
  {
    assert s == s[..i] + [s[i]] + s[i + 1..j] + [s[j]] + s[j + 1..];
  }

  lemma {:induction false} FilterSorted<T(!new)>(s: seq<T>, p: T -> bool, key: T -> int)
    requires SortedBy(s, key)
    ensures SortedBy(Filter(s, p), key)
    decreases |s|
  {
    if s != [] {
      FilterSorted(s[1..], p, key);
      var f := Filter(s[1..], p);
      forall k | 0 <= k < |f| ensures key(s[0]) <= key(f[k]) {
        assert f[k] in s[1..];
        var m :| 0 <= m < |s[1..]| && s[1..][m] == f[k];
        assert s[m + 1] == f[k];
      }
    }
  }

  lemma AppendAssociative<T>(a: seq<T>, b: seq<T>, c: seq<T>)
    ensures a + b + c == a + (b + c)
  {
  }

  /** Position of the first occurrence of `x`, if any (`x in table.columns`
      followed by a lookup of that column). */
  function IndexOf<T(==)>(s: seq<T>, x: T): (r: Option<nat>)
    ensures r.Some? ==> r.value < |s| && s[r.value] == x
    ensures r.Some? ==> forall i :: 0 <= i < r.value ==> s[i] != x
    ensures r.None? ==> x !in s
    decreases |s|
  {
    if s == [] then None
    else if s[0] == x then Some(0)
    else match IndexOf(s[1..], x)
      case None => None
      case Some(k) => Some(k + 1)
  }
}
