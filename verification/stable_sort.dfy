/**
  A stable sort by an integer key. `Array.prototype.sort` is stable, so both
  `winners.sort((a, b) => a.duration - b.duration)` and
  `leaderboard.sort((a, b) => b.score - a.score)` are this sort, with the key
  `duration` and `-score` respectively.
 */
module StableSort {
  import opened Sums

  ghost predicate Ascending<T>(s: seq<T>, key: T -> int) {
    forall i, j :: 0 <= i < j < |s| ==> key(s[i]) <= key(s[j])
  }

  /** The elements of `s` whose key is `k`, in their order in `s`. */
  function KeyFilter<T>(s: seq<T>, key: T -> int, k: int): seq<T> {
    if |s| == 0 then []
    else (if key(s[0]) == k then [s[0]] else []) + KeyFilter(s[1..], key, k)
  }

  /** No two elements of `s` share an `id`. */
  ghost predicate Distinct<T, K>(s: seq<T>, id: T -> K) {
    forall i, j :: 0 <= i < j < |s| ==> id(s[i]) != id(s[j])
  }

  /** Puts `x` in front of the first element whose key is not smaller than its own. */
  function Insert<T>(x: T, s: seq<T>, key: T -> int): (r: seq<T>)
    ensures |r| == |s| + 1
    ensures multiset(r) == multiset(s) + multiset{x}
    ensures Ascending(s, key) ==> Ascending(r, key)
  {
    if |s| == 0 then [x]
    else if key(x) <= key(s[0]) then [x] + s
    else
      var rest := Insert(x, s[1..], key);
      assert s == [s[0]] + s[1..];
      InsertKeepsAscending(x, s, rest, key);
      [s[0]] + rest
  }

  lemma InsertKeepsAscending<T>(x: T, s: seq<T>, rest: seq<T>, key: T -> int)
    requires |s| > 0 && key(x) > key(s[0])
    requires multiset(rest) == multiset(s[1..]) + multiset{x}
    requires Ascending(s, key) ==> Ascending(rest, key)
    ensures Ascending(s, key) ==> Ascending([s[0]] + rest, key)
  {
    if Ascending(s, key) {
      var r := [s[0]] + rest;
      forall i, j | 0 <= i < j < |r| ensures key(r[i]) <= key(r[j]) {
        if i == 0 {
          var e := r[j];
          assert e == rest[j - 1];
          assert e in multiset(rest);
          if e != x {
            assert e in multiset(s[1..]);
            var m :| 0 <= m < |s[1..]| && s[1..][m] == e;
            assert s[m + 1] == e;
          }
        } else {
          assert r[i] == rest[i - 1] && r[j] == rest[j - 1];
        }
      }
    }
  }

  /** Insertion sort: each element goes in front of the equal-keyed elements that follow it. */
  function SortBy<T>(s: seq<T>, key: T -> int): (r: seq<T>)
    ensures |r| == |s|
    ensures multiset(r) == multiset(s)
    ensures Ascending(r, key)
  {
    if |s| == 0 then []
    else
      assert s == [s[0]] + s[1..];
      Insert(s[0], SortBy(s[1..], key), key)
  }

  /** `KeyFilter` of a sequence with a head: the head, if it has the key, then the filtered tail. */
  lemma KeyFilterCons<T>(y: T, r: seq<T>, key: T -> int, k: int)
    ensures KeyFilter([y] + r, key, k) == (if key(y) == k then [y] else []) + KeyFilter(r, key, k)
  {
    assert ([y] + r)[0] == y && ([y] + r)[1..] == r;
  }

  lemma {:induction false} KeyFilterInsert<T>(x: T, s: seq<T>, key: T -> int, k: int)
    ensures KeyFilter(Insert(x, s, key), key, k)
         == (if key(x) == k then [x] else []) + KeyFilter(s, key, k)
    decreases |s|
  {
    if |s| == 0 {
      assert Insert(x, s, key) == [x] + s;
      KeyFilterCons(x, s, key, k);
    } else if key(x) <= key(s[0]) {
      assert Insert(x, s, key) == [x] + s;
      KeyFilterCons(x, s, key, k);
    } else {
      KeyFilterInsert(x, s[1..], key, k);
      KeyAfterHead(x, s, key, k);
    }
  }

  /** The step of `KeyFilterInsert` when `x` goes after the head of `s`. */
  lemma KeyAfterHead<T>(x: T, s: seq<T>, key: T -> int, k: int)
    requires |s| > 0 && key(x) > key(s[0])
    requires KeyFilter(Insert(x, s[1..], key), key, k)
             == (if key(x) == k then [x] else []) + KeyFilter(s[1..], key, k)
    ensures KeyFilter(Insert(x, s, key), key, k)
         == (if key(x) == k then [x] else []) + KeyFilter(s, key, k)
  {
    var rest := Insert(x, s[1..], key);
    assert Insert(x, s, key) == [s[0]] + rest;
    KeyFilterCons(s[0], rest, key, k);
    OneOfTwoIsEmpty(if key(s[0]) == k then [s[0]] else [], if key(x) == k then [x] else [], KeyFilter(s[1..], key, k));
  }

  lemma OneOfTwoIsEmpty<T>(a: seq<T>, b: seq<T>, tail: seq<T>)
    requires a == [] || b == []
    ensures a + (b + tail) == b + (a + tail)
  {
    if a == [] {
      assert a + (b + tail) == b + tail;
    } else {
      assert b + (a + tail) == a + tail;
    }
  }

  /** Stability: for every key, the elements with that key keep their relative order. */
  lemma {:induction false} SortByIsStable<T>(s: seq<T>, key: T -> int, k: int)
    ensures KeyFilter(SortBy(s, key), key, k) == KeyFilter(s, key, k)
    decreases |s|
  {
    if |s| > 0 {
      SortByIsStable(s[1..], key, k);
      KeyFilterInsert(s[0], SortBy(s[1..], key), key, k);
    }
  }

  lemma {:induction false} KeyFilterFindsKey<T>(s: seq<T>, key: T -> int, i: int)
    requires 0 <= i < |s|
    ensures |KeyFilter(s, key, key(s[i]))| > 0
    decreases |s|
  {
    if i > 0 && key(s[0]) != key(s[i]) {
      KeyFilterFindsKey(s[1..], key, i - 1);
    }
  }

  lemma {:induction false} KeyFilterHasKey<T>(s: seq<T>, key: T -> int, k: int)
    requires |KeyFilter(s, key, k)| > 0
    ensures exists i :: 0 <= i < |s| && key(s[i]) == k
    decreases |s|
  {
    if key(s[0]) != k {
      KeyFilterHasKey(s[1..], key, k);
      var i :| 0 <= i < |s[1..]| && key(s[1..][i]) == k;
      assert key(s[i + 1]) == k;
    }
  }

  /** The smallest key of an ascending sequence is that of its head. */
  lemma HeadKeyIsLeast<T>(a: seq<T>, b: seq<T>, key: T -> int)
    requires |a| > 0 && |b| > 0
    requires Ascending(a, key)
    requires forall k :: KeyFilter(a, key, k) == KeyFilter(b, key, k)
    ensures key(a[0]) <= key(b[0])
  {
    KeyFilterFindsKey(b, key, 0);
    assert KeyFilter(a, key, key(b[0])) == KeyFilter(b, key, key(b[0]));
    KeyFilterHasKey(a, key, key(b[0]));
  }

  /** Two arrangements with the same least key and the same per-key filters start with the same element. */
  lemma SameHeads<T>(a: seq<T>, b: seq<T>, key: T -> int)
    requires |a| > 0 && |b| > 0 && key(a[0]) == key(b[0])
    requires KeyFilter(a, key, key(a[0])) == KeyFilter(b, key, key(a[0]))
    ensures a[0] == b[0]
  {
    var m := key(a[0]);
    assert a == [a[0]] + a[1..] && b == [b[0]] + b[1..];
    KeyFilterCons(a[0], a[1..], key, m);
    KeyFilterCons(b[0], b[1..], key, m);
    assert KeyFilter(a, key, m)[0] == a[0];
  }

  /** Dropping a shared head keeps every per-key filter equal. */
  lemma SameTailFilters<T>(a: seq<T>, b: seq<T>, key: T -> int)
    requires |a| > 0 && |b| > 0 && a[0] == b[0]
    requires forall k :: KeyFilter(a, key, k) == KeyFilter(b, key, k)
    ensures forall k :: KeyFilter(a[1..], key, k) == KeyFilter(b[1..], key, k)
  {
    assert a == [a[0]] + a[1..] && b == [b[0]] + b[1..];
    forall k ensures KeyFilter(a[1..], key, k) == KeyFilter(b[1..], key, k) {
      KeyFilterCons(a[0], a[1..], key, k);
      KeyFilterCons(b[0], b[1..], key, k);
      var h := if key(a[0]) == k then [a[0]] else [];
      assert KeyFilter(a[1..], key, k) == KeyFilter(a, key, k)[|h|..];
      assert KeyFilter(b[1..], key, k) == KeyFilter(b, key, k)[|h|..];
    }
  }

  /**
    An ascending arrangement that keeps every key's elements in their order
    is unique: any stable sort of `s` by `key` equals `SortBy(s, key)`.
   */
  lemma {:induction false} StableArrangementIsUnique<T>(a: seq<T>, b: seq<T>, key: T -> int)
    requires Ascending(a, key) && Ascending(b, key)
    requires forall k :: KeyFilter(a, key, k) == KeyFilter(b, key, k)
    ensures a == b
    decreases |a| + |b|
  {
    EmptyFiltersMatch(a, b, key);
    if |a| > 0 {
      HeadKeyIsLeast(a, b, key);
      HeadKeyIsLeast(b, a, key);
      SameHeads(a, b, key);
      SameTailFilters(a, b, key);
      AscendingTail(a, key);
      AscendingTail(b, key);
      StableArrangementIsUnique(a[1..], b[1..], key);
      assert a == [a[0]] + a[1..] && b == [b[0]] + b[1..];
    }
  }

  /** Sequences with the same per-key filters are both empty or both not. */
  lemma EmptyFiltersMatch<T>(a: seq<T>, b: seq<T>, key: T -> int)
    requires forall k :: KeyFilter(a, key, k) == KeyFilter(b, key, k)
    ensures |a| == 0 <==> |b| == 0
  {
    if |a| > 0 {
      KeyFilterFindsKey(a, key, 0);
      assert |KeyFilter(b, key, key(a[0]))| > 0;
    }
    if |b| > 0 {
      KeyFilterFindsKey(b, key, 0);
      assert |KeyFilter(a, key, key(b[0]))| > 0;
    }
  }

  /** The tail of an ascending sequence is ascending. */
  lemma AscendingTail<T>(s: seq<T>, key: T -> int)
    requires |s| > 0 && Ascending(s, key)
    ensures Ascending(s[1..], key)
  {
    forall i, j | 0 <= i < j < |s| - 1 ensures key(s[1..][i]) <= key(s[1..][j]) {
      assert s[1..][i] == s[i + 1] && s[1..][j] == s[j + 1];
    }
  }

  /** `SortBy` is the stable sort: it is the only ascending, order-keeping arrangement of `s`. */
  lemma SortByIsTheStableSort<T>(s: seq<T>, r: seq<T>, key: T -> int)
    requires Ascending(r, key)
    requires forall k :: KeyFilter(r, key, k) == KeyFilter(s, key, k)
    ensures r == SortBy(s, key)
  {
    forall k ensures KeyFilter(SortBy(s, key), key, k) == KeyFilter(r, key, k) {
      SortByIsStable(s, key, k);
    }
    StableArrangementIsUnique(SortBy(s, key), r, key);
  }

  /** A sequence with a head is `Distinct` when its tail is and no tail element shares the head's `id`. */
  lemma DistinctCons<T, K>(y: T, r: seq<T>, id: T -> K)
    ensures Distinct([y] + r, id) <==> Distinct(r, id) && forall e :: e in r ==> id(e) != id(y)
  {
    var u := [y] + r;
    if Distinct(u, id) {
      forall i, j | 0 <= i < j < |r| ensures id(r[i]) != id(r[j]) {
        assert r[i] == u[i + 1] && r[j] == u[j + 1];
      }
      forall e | e in r ensures id(e) != id(y) {
        var j :| 0 <= j < |r| && r[j] == e;
        assert u[j + 1] == e && u[0] == y;
      }
    }
    if Distinct(r, id) && forall e :: e in r ==> id(e) != id(y) {
      forall i, j | 0 <= i < j < |u| ensures id(u[i]) != id(u[j]) {
        if i == 0 {
          assert u[j] == r[j - 1] && u[j] in r;
        } else {
          assert u[i] == r[i - 1] && u[j] == r[j - 1];
        }
      }
    }
  }

  lemma {:induction false} InsertKeepsDistinct<T, K>(x: T, s: seq<T>, key: T -> int, id: T -> K)
    requires Distinct([x] + s, id)
    ensures Distinct(Insert(x, s, key), id)
    decreases |s|
  {
    if |s| == 0 || key(x) <= key(s[0]) {
      assert Insert(x, s, key) == [x] + s;
    } else {
      var rest := Insert(x, s[1..], key);
      DistinctCons(x, s, id);
      assert s == [s[0]] + s[1..];
      DistinctCons(s[0], s[1..], id);
      DistinctCons(x, s[1..], id);
      InsertKeepsDistinct(x, s[1..], key, id);
      forall e | e in rest ensures id(e) != id(s[0]) {
        assert e in multiset(rest);
        if e != x {
          assert e in multiset(s[1..]);
        }
      }
      DistinctCons(s[0], rest, id);
      assert Insert(x, s, key) == [s[0]] + rest;
    }
  }

  lemma NoneSharesAfterReorder<T, K>(a: seq<T>, b: seq<T>, y: T, id: T -> K)
    requires multiset(a) == multiset(b)
    requires forall e :: e in a ==> id(e) != id(y)
    ensures forall e :: e in b ==> id(e) != id(y)
  {
    forall e | e in b ensures id(e) != id(y) {
      assert e in multiset(b);
      assert e in multiset(a);
    }
  }

  /** Sorting never makes two elements share an `id`. */
  lemma {:induction false} SortByKeepsDistinct<T, K>(s: seq<T>, key: T -> int, id: T -> K)
    requires Distinct(s, id)
    ensures Distinct(SortBy(s, key), id)
    decreases |s|
  {
    if |s| > 0 {
      var t := SortBy(s[1..], key);
      assert s == [s[0]] + s[1..];
      DistinctCons(s[0], s[1..], id);
      SortByKeepsDistinct(s[1..], key, id);
      NoneSharesAfterReorder(s[1..], t, s[0], id);
      DistinctCons(s[0], t, id);
      InsertKeepsDistinct(s[0], t, key, id);
      assert SortBy(s, key) == Insert(s[0], t, key);
    }
  }

  lemma {:induction false} InsertAddsToSum<T>(x: T, s: seq<T>, key: T -> int, f: T -> int)
    ensures SumBy(Insert(x, s, key), f) == f(x) + SumBy(s, f)
    decreases |s|
  {
    if |s| > 0 {
      if key(x) <= key(s[0]) {
        assert ([x] + s)[1..] == s;
      } else {
        var rest := Insert(x, s[1..], key);
        assert ([s[0]] + rest)[1..] == rest;
        InsertAddsToSum(x, s[1..], key, f);
      }
    }
  }

  /** Sorting keeps every sum over the elements. */
  lemma {:induction false} SortByKeepsSum<T>(s: seq<T>, key: T -> int, f: T -> int)
    ensures SumBy(SortBy(s, key), f) == SumBy(s, f)
    decreases |s|
  {
    if |s| > 0 {
      SortByKeepsSum(s[1..], key, f);
      InsertAddsToSum(s[0], SortBy(s[1..], key), key, f);
    }
  }
}
