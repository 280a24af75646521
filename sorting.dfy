/**
 * `Array.prototype.sort` with a comparator `(a, b) => key(a) - key(b)`.
 * The ECMAScript sort is stable, so for a consistent comparator its result is
 * determined: ascending by key, elements with equal keys in input order.
 * It is modelled by a stable insertion sort.
 */
module Sorting {
  import opened Seqs

  /** Ascending by `key`. */
  predicate SortedBy<T>(s: seq<T>, key: T -> int)
  {
    forall i, j :: 0 <= i < j < |s| ==> key(s[i]) <= key(s[j])
  }

  /** The predicate "has key `v`", named so that every use denotes the same function. */
  function KeyIs<T>(key: T -> int, v: int): T -> bool
  {
    x => key(x) == v
  }

  /** Insert `x` in front of the first element whose key is not below `x`'s. */
  function Insert<T>(x: T, s: seq<T>, key: T -> int): (r: seq<T>)
    ensures multiset(r) == multiset(s) + multiset{x}
    ensures |r| == |s| + 1
  {
    if s == [] || key(x) <= key(s[0]) then [x] + s
    else
      assert s == [s[0]] + s[1..];
      [s[0]] + Insert(x, s[1..], key)
  }

  lemma {:induction false} InsertBounded<T>(x: T, s: seq<T>, key: T -> int, b: int)
    requires b <= key(x)
    requires forall i :: 0 <= i < |s| ==> b <= key(s[i])
    ensures forall i :: 0 <= i < |Insert(x, s, key)| ==> b <= key(Insert(x, s, key)[i])
  {
    if !(s == [] || key(x) <= key(s[0])) {
      InsertBounded(x, s[1..], key, b);
    }
  }

  lemma {:induction false} InsertSorted<T>(x: T, s: seq<T>, key: T -> int)
    requires SortedBy(s, key)
    ensures SortedBy(Insert(x, s, key), key)
  {
    if !(s == [] || key(x) <= key(s[0])) {
      InsertSorted(x, s[1..], key);
      InsertBounded(x, s[1..], key, key(s[0]));
    }
  }

  /** The sorted array: ascending by `key` and a permutation of `s`. */
  function SortBy<T>(s: seq<T>, key: T -> int): (r: seq<T>)
    ensures SortedBy(r, key)
    ensures multiset(r) == multiset(s)
    ensures |r| == |s|
  {
    if s == [] then []
    else
      assert s == [s[0]] + s[1..];
      InsertSorted(s[0], SortBy(s[1..], key), key);
      Insert(s[0], SortBy(s[1..], key), key)
  }

  /** Inserting `x` puts it before every element of equal key: none is skipped over. */
  lemma {:induction false} InsertStable<T>(x: T, s: seq<T>, key: T -> int, v: int)
    ensures Filter(Insert(x, s, key), KeyIs(key, v))
         == (if key(x) == v then [x] else []) + Filter(s, KeyIs(key, v))
  {
    var p := KeyIs(key, v);
    var own := if key(x) == v then [x] else [];
    if s == [] || key(x) <= key(s[0]) {
      FilterAppend([x], s, p);
      assert Filter([x], p) == own;
    } else {
      var tail := Insert(x, s[1..], key);
      var head := Filter([s[0]], p);
      var rest := Filter(s[1..], p);
      assert head == [] || own == [] by {
        assert head == if key(s[0]) == v then [s[0]] else [];
      }
      assert Filter(s, p) == head + rest by {
        assert s == [s[0]] + s[1..];
        FilterAppend([s[0]], s[1..], p);
      }
      assert Filter(Insert(x, s, key), p) == head + Filter(tail, p) by {
        FilterAppend([s[0]], tail, p);
      }
      InsertStable(x, s[1..], key, v);
      EmptyCommutes(head, own, rest);
    }
  }

  /** When one of two sequences is empty, their order in front of a third does not matter. */
  lemma EmptyCommutes<T>(a: seq<T>, b: seq<T>, c: seq<T>)
    requires a == [] || b == []
    ensures a + (b + c) == b + (a + c)
  {
    if a == [] {
      assert a + (b + c) == b + c;
    } else {
      assert b + (a + c) == a + c;
    }
  }

  /** Stability: the elements with any one key keep their relative order. */
  lemma {:induction false} SortByStable<T>(s: seq<T>, key: T -> int, v: int)
    ensures Filter(SortBy(s, key), KeyIs(key, v)) == Filter(s, KeyIs(key, v))
  {
    if s != [] {
      var p := KeyIs(key, v);
      assert Filter(s, p) == Filter([s[0]], p) + Filter(s[1..], p) by {
        assert s == [s[0]] + s[1..];
        FilterAppend([s[0]], s[1..], p);
      }
      assert Filter([s[0]], p) == if key(s[0]) == v then [s[0]] else [];
      var t := SortBy(s[1..], key);
      assert SortBy(s, key) == Insert(s[0], t, key);
      SortByStable(s[1..], key, v);
      InsertStable(s[0], t, key, v);
    }
  }

  lemma {:induction false} InsertMembers<T>(x: T, s: seq<T>, key: T -> int)
    ensures forall y :: y in Insert(x, s, key) <==> y == x || y in s
  {
    if !(s == [] || key(x) <= key(s[0])) {
      InsertMembers(x, s[1..], key);
      assert s == [s[0]] + s[1..];
    }
  }

  lemma {:induction false} InsertDistinct<T>(x: T, s: seq<T>, key: T -> int)
    requires Distinct(s) && x !in s
    ensures Distinct(Insert(x, s, key))
  {
    if !(s == [] || key(x) <= key(s[0])) {
      assert s == [s[0]] + s[1..];
      InsertDistinct(x, s[1..], key);
      InsertMembers(x, s[1..], key);
      var r := Insert(x, s, key);
      assert r == [s[0]] + Insert(x, s[1..], key);
      assert s[0] !in s[1..];
      assert s[0] !in r[1..];
      forall i, j | 0 <= i < j < |r| ensures r[i] != r[j] {
        if i == 0 {
          assert r[j] in r[1..];
        } else {
          assert r[i] == r[1..][i - 1] && r[j] == r[1..][j - 1];
        }
      }
    }
  }

  /** Sorting neither adds nor loses an element. */
  lemma {:induction false} SortByMembers<T>(s: seq<T>, key: T -> int)
    ensures forall x :: x in SortBy(s, key) <==> x in s
  {
    if s != [] {
      SortByMembers(s[1..], key);
      InsertMembers(s[0], SortBy(s[1..], key), key);
      assert s == [s[0]] + s[1..];
    }
  }

  /** Sorting a list without repetitions gives a list without repetitions. */
  lemma {:induction false} SortByDistinct<T>(s: seq<T>, key: T -> int)
    requires Distinct(s)
    ensures Distinct(SortBy(s, key))
  {
    if s != [] {
      assert s == [s[0]] + s[1..];
      SortByDistinct(s[1..], key);
      SortByMembers(s[1..], key);
      InsertDistinct(s[0], SortBy(s[1..], key), key);
    }
  }

  /** Two sorted lists, every key of the first at most every key of the second, concatenate to a sorted list. */
  lemma SortedAppend<T>(a: seq<T>, b: seq<T>, key: T -> int)
    requires SortedBy(a, key) && SortedBy(b, key)
    requires forall i, j :: 0 <= i < |a| && 0 <= j < |b| ==> key(a[i]) <= key(b[j])
    ensures SortedBy(a + b, key)
  {
    forall i, j | 0 <= i < j < |a + b| ensures key((a + b)[i]) <= key((a + b)[j]) {
      if j < |a| {
      } else if i < |a| {
        assert (a + b)[j] == b[j - |a|];
      } else {
        assert (a + b)[i] == b[i - |a|] && (a + b)[j] == b[j - |a|];
      }
    }
  }
}
