/**
  Python's stable `list.sort(key=..., reverse=True)`, Python's prefix slice
  `s[:k]`, and a MongoDB cursor `limit`.
 */
module Sorting {

  /** Non-increasing by `key`. */
  ghost predicate SortedDesc<T>(s: seq<T>, key: T -> real)
  {
    forall i, j :: 0 <= i < j < |s| ==> key(s[i]) >= key(s[j])
  }

  /** A sorted list, optionally headed by an element no smaller than any of its members, is sorted and bounded by that element. */
  lemma SortedCons<T>(head: seq<T>, x: T, rest: seq<T>, key: T -> real)
    requires head == [] || head == [x]
    requires SortedDesc(rest, key)
    requires forall k :: 0 <= k < |rest| ==> key(rest[k]) <= key(x)
    ensures SortedDesc(head + rest, key)
    ensures forall k :: 0 <= k < |head + rest| ==> key((head + rest)[k]) <= key(x)
  {
    var g := head + rest;
    forall i, j | 0 <= i < j < |g|
      ensures key(g[i]) >= key(g[j])
    {
      assert g[j] == rest[j - |head|];
      if i >= |head| {
        assert g[i] == rest[i - |head|];
      }
    }
    forall k | 0 <= k < |g|
      ensures key(g[k]) <= key(x)
    {
      if k >= |head| {
        assert g[k] == rest[k - |head|];
      }
    }
  }

  /** The subsequence of elements whose key equals `k`, in their original order. */
  function WithKey<T>(s: seq<T>, key: T -> real, k: real): seq<T>
    decreases |s|
  {
    if |s| == 0 then []
    else (if key(s[0]) == k then [s[0]] else []) + WithKey(s[1..], key, k)
  }

  /** A stable descending sort keeps, for every key value, the same subsequence. */
  ghost predicate Stable<T>(r: seq<T>, s: seq<T>, key: T -> real)
  {
    forall k :: WithKey(r, key, k) == WithKey(s, key, k)
  }

  /** Insert `x` in front of every element whose key is not greater (keeps stability). */
  function Insert<T>(x: T, s: seq<T>, key: T -> real): (r: seq<T>)
    ensures |r| == |s| + 1
    ensures |r| > 0 && (r[0] == x || (|s| > 0 && r[0] == s[0]))
    ensures multiset(r) == multiset(s) + multiset{x}
    decreases |s|
  {
    if |s| == 0 || key(x) >= key(s[0]) then [x] + s
    else
      assert s == [s[0]] + s[1..];
      [s[0]] + Insert(x, s[1..], key)
  }

  lemma {:induction false} InsertSorted<T>(x: T, s: seq<T>, key: T -> real)
    requires SortedDesc(s, key)
    ensures SortedDesc(Insert(x, s, key), key)
    decreases |s|
  {
    if |s| > 0 && key(x) < key(s[0]) {
      var t := Insert(x, s[1..], key);
      InsertSorted(x, s[1..], key);
      var r := [s[0]] + t;
      assert key(s[0]) >= key(t[0]);
      forall i, j | 0 <= i < j < |r|
        ensures key(r[i]) >= key(r[j])
      {
        if i == 0 {
          assert r[j] == t[j - 1];
          if j > 1 {
            assert key(t[0]) >= key(t[j - 1]);
          }
        } else {
          assert r[i] == t[i - 1] && r[j] == t[j - 1];
        }
      }
    }
  }

  lemma {:induction false} InsertWithKey<T>(x: T, s: seq<T>, key: T -> real, k: real)
    requires SortedDesc(s, key)
    ensures WithKey(Insert(x, s, key), key, k)
         == (if key(x) == k then [x] else []) + WithKey(s, key, k)
    decreases |s|
  {
    if |s| == 0 || key(x) >= key(s[0]) {
      assert ([x] + s)[1..] == s;
    } else {
      var t := Insert(x, s[1..], key);
      var h: seq<T> := if key(s[0]) == k then [s[0]] else [];
      var hx: seq<T> := if key(x) == k then [x] else [];
      SortedTail(s, key);
      assert ([s[0]] + t)[0] == s[0] && ([s[0]] + t)[1..] == t;
      calc {
        WithKey(Insert(x, s, key), key, k);
        WithKey([s[0]] + t, key, k);
        h + WithKey(t, key, k);
        { InsertWithKey(x, s[1..], key, k); }
        h + (hx + WithKey(s[1..], key, k));
        { assert h == [] || hx == []; }
        hx + (h + WithKey(s[1..], key, k));
        hx + WithKey(s, key, k);
      }
    }
  }

  /** The tail of a sorted list is sorted. */
  lemma SortedTail<T>(s: seq<T>, key: T -> real)
    requires SortedDesc(s, key) && |s| > 0
    ensures SortedDesc(s[1..], key)
  {
    forall i, j | 0 <= i < j < |s| - 1
      ensures key(s[1..][i]) >= key(s[1..][j])
    {
      assert s[1..][i] == s[i + 1] && s[1..][j] == s[j + 1];
    }
  }

  /** Python's `sorted(s, key=key, reverse=True)`: a stable, non-increasing permutation. */
  function SortDesc<T>(s: seq<T>, key: T -> real): (r: seq<T>)
    ensures |r| == |s|
    ensures multiset(r) == multiset(s)
    ensures SortedDesc(r, key)
    ensures Stable(r, s, key)
    decreases |s|
  {
    if |s| == 0 then []
    else
      var rest := SortDesc(s[1..], key);
      InsertSorted(s[0], rest, key);
      assert s == [s[0]] + s[1..];
      assert multiset(s) == multiset{s[0]} + multiset(s[1..]);
      assert forall k :: WithKey(Insert(s[0], rest, key), key, k) == WithKey(s, key, k) by {
        forall k
          ensures WithKey(Insert(s[0], rest, key), key, k) == WithKey(s, key, k)
        {
          InsertWithKey(s[0], rest, key, k);
        }
      }
      Insert(s[0], rest, key)
  }

  /** Sorting keeps exactly the same elements. */
  lemma SortDescSameElements<T>(s: seq<T>, key: T -> real)
    ensures forall x :: x in SortDesc(s, key) <==> x in s
  {
    var r := SortDesc(s, key);
    forall x
      ensures x in r <==> x in s
    {
      assert x in r <==> x in multiset(r);
      assert x in s <==> x in multiset(s);
    }
  }

  /** A prefix of a sorted sequence, as `PyTake` or `MongoLimit` cut it, is sorted and draws from the sequence. */
  lemma PrefixSorted<T>(s: seq<T>, r: seq<T>, key: T -> real)
    requires SortedDesc(s, key) && r <= s
    ensures SortedDesc(r, key)
    ensures forall k :: 0 <= k < |r| ==> r[k] == s[k]
  {
  }

  /**
    `r` is drawn from `s` (with multiplicity) and nothing of `s` left out of
    `r` ranks above anything kept: the kept elements are the best ones.
   */
  ghost predicate KeepsBest<T>(r: seq<T>, s: seq<T>, key: T -> real)
  {
    && multiset(r) <= multiset(s)
    && forall x, i :: x in multiset(s) - multiset(r) && 0 <= i < |r| ==> key(x) <= key(r[i])
  }

  /** A prefix of a non-increasing arrangement of `s` keeps the best elements of `s`. */
  lemma PrefixKeepsBest<T>(s: seq<T>, sorted: seq<T>, n: nat, key: T -> real)
    requires multiset(sorted) == multiset(s) && SortedDesc(sorted, key) && n <= |sorted|
    ensures KeepsBest(sorted[..n], s, key)
  {
    var r, rest := sorted[..n], sorted[n..];
    assert sorted == r + rest;
    assert multiset(s) == multiset(r) + multiset(rest);
    assert multiset(s) - multiset(r) == multiset(rest);
    forall x, i | x in multiset(s) - multiset(r) && 0 <= i < |r|
      ensures key(x) <= key(r[i])
    {
      assert x in rest;
      var j :| 0 <= j < |rest| && rest[j] == x;
      assert sorted[n + j] == x && sorted[i] == r[i];
    }
  }

  /**
    Ties are kept in their order in `s`, earliest first: for every key value,
    the elements of `r` with that key are a prefix of those of `s`.
   */
  ghost predicate KeepsTieOrder<T>(r: seq<T>, s: seq<T>, key: T -> real)
  {
    forall v :: WithKey(r, key, v) <= WithKey(s, key, v)
  }

  /** The elements of a prefix with one key are a prefix of the elements with that key. */
  lemma {:induction false} WithKeyPrefix<T>(t: seq<T>, n: nat, key: T -> real, v: real)
    requires n <= |t|
    ensures WithKey(t[..n], key, v) <= WithKey(t, key, v)
    decreases n
  {
    if n > 0 {
      WithKeyPrefix(t[1..], n - 1, key, v);
      assert t[..n][0] == t[0] && t[..n][1..] == t[1..][..n - 1];
    }
  }

  /** A prefix of the sorted sequence is sorted, keeps the best elements and draws them from `s`. */
  lemma SortedPrefix<T>(s: seq<T>, key: T -> real, n: nat)
    requires n <= |s|
    ensures SortedDesc(SortDesc(s, key)[..n], key)
    ensures KeepsBest(SortDesc(s, key)[..n], s, key)
    ensures forall i :: 0 <= i < n ==> SortDesc(s, key)[..n][i] in s
    ensures KeepsTieOrder(SortDesc(s, key)[..n], s, key)
  {
    var sorted := SortDesc(s, key);
    forall v
      ensures WithKey(sorted[..n], key, v) <= WithKey(s, key, v)
    {
      WithKeyPrefix(sorted, n, key, v);
    }
    SortDescSameElements(s, key);
    PrefixSorted(sorted, sorted[..n], key);
    PrefixKeepsBest(s, sorted, n, key);
    forall i | 0 <= i < n
      ensures sorted[..n][i] in s
    {
      assert sorted[..n][i] in multiset(sorted);
    }
  }

  /** Sorting an already non-increasing sequence changes nothing (stability). */
  lemma {:induction false} SortSortedIsIdentity<T>(s: seq<T>, key: T -> real)
    requires SortedDesc(s, key)
    ensures SortDesc(s, key) == s
    decreases |s|
  {
    if |s| > 0 {
      SortSortedIsIdentity(s[1..], key);
      assert SortDesc(s[1..], key) == s[1..];
      assert s == [s[0]] + s[1..];
    }
  }

  /** Python's prefix slice `s[:k]`; a negative `k` counts from the end. */
  function PyTake<T>(s: seq<T>, k: int): (r: seq<T>)
    ensures k >= 0 ==> |r| == if k < |s| then k else |s|
    ensures k < 0 ==> |r| == if |s| + k > 0 then |s| + k else 0
    ensures r <= s
  {
    if k >= 0 then (if k < |s| then s[..k] else s)
    else (if |s| + k > 0 then s[..|s| + k] else [])
  }

  /** `sorted(s, key=key, reverse=True)[:k]`: the best `k` elements, best first. */
  function TopK<T>(s: seq<T>, key: T -> real, k: int): (r: seq<T>)
    ensures SortedDesc(r, key)
    ensures k >= 0 ==> |r| == if k < |s| then k else |s|
    ensures k < 0 ==> |r| == if |s| + k > 0 then |s| + k else 0
    ensures KeepsBest(r, s, key)
    ensures KeepsTieOrder(r, s, key)
    ensures forall i :: 0 <= i < |r| ==> r[i] in s
    ensures k >= |s| ==> multiset(r) == multiset(s) && Stable(r, s, key)
  {
    var sorted := SortDesc(s, key);
    var r := PyTake(sorted, k);
    assert r == sorted[..|r|];
    SortedPrefix(s, key, |r|);
    r
  }

  /** Of two tied elements, a cut to one keeps the earlier. */
  lemma TopKTieKeepsFirst<T>(a: T, b: T, key: T -> real)
    requires key(a) == key(b)
    ensures TopK([a, b], key, 1) == [a]
  {
    var r := TopK([a, b], key, 1);
    assert r[0] in [a, b];
    assert [a, b][1..] == [b] && [b][1..] == [];
    assert WithKey([b], key, key(a)) == [b] + WithKey([], key, key(a));
    assert WithKey([a, b], key, key(a)) == [a] + WithKey([b], key, key(a));
    assert r[1..] == [];
    assert WithKey(r, key, key(a)) == [r[0]] + WithKey(r[1..], key, key(a));
  }

  /** `find(...).sort(key, -1).limit(limit)` on the matching documents `s`. */
  function TopLimit<T>(s: seq<T>, key: T -> real, limit: int): (r: seq<T>)
    ensures SortedDesc(r, key)
    ensures |r| == if limit == 0 || |s| < Abs(limit) then |s| else Abs(limit)
    ensures KeepsBest(r, s, key)
    ensures forall i :: 0 <= i < |r| ==> r[i] in s
    ensures limit == 0 ==> multiset(r) == multiset(s) && Stable(r, s, key)
  {
    var sorted := SortDesc(s, key);
    var r := MongoLimit(sorted, limit);
    assert r == sorted[..|r|];
    SortedPrefix(s, key, |r|);
    r
  }

  /** A MongoDB cursor `limit`: 0 means no limit and a negative limit acts as its absolute value. */
  function MongoLimit<T>(s: seq<T>, limit: int): (r: seq<T>)
    ensures limit == 0 ==> r == s
    ensures limit != 0 ==> |r| == if |s| < Abs(limit) then |s| else Abs(limit)
    ensures r <= s
  {
    if limit == 0 then s
    else if Abs(limit) < |s| then s[..Abs(limit)] else s
  }

  function Abs(x: int): nat
  {
    if x < 0 then -x else x
  }

  /** Keeps the elements satisfying `p`, in order (a list comprehension with a condition). */
  function Filter<T>(s: seq<T>, p: T -> bool): (r: seq<T>)
    ensures |r| <= |s|
    ensures forall i :: 0 <= i < |r| ==> p(r[i])
    ensures forall i :: 0 <= i < |r| ==> r[i] in s
    ensures forall i :: 0 <= i < |s| && p(s[i]) ==> s[i] in r
    decreases |s|
  {
    if |s| == 0 then []
    else (if p(s[0]) then [s[0]] else []) + Filter(s[1..], p)
  }

  /** Filtering keeps the survivors in their order: an ascending measure stays ascending. */
  lemma {:induction false} FilterAscending<T>(s: seq<T>, p: T -> bool, f: T -> int)
    requires forall j, k :: 0 <= j < k < |s| ==> f(s[j]) < f(s[k])
    ensures forall j, k :: 0 <= j < k < |Filter(s, p)| ==> f(Filter(s, p)[j]) < f(Filter(s, p)[k])
    decreases |s|
  {
    if |s| > 0 {
      var rest := Filter(s[1..], p);
      FilterAscending(s[1..], p, f);
      forall k | 0 <= k < |rest|
        ensures f(s[0]) < f(rest[k])
      {
        var i :| 0 <= i < |s[1..]| && s[1..][i] == rest[k];
        assert s[i + 1] == rest[k];
      }
      var head: seq<T> := if p(s[0]) then [s[0]] else [];
      var r := head + rest;
      forall j, k | 0 <= j < k < |r|
        ensures f(r[j]) < f(r[k])
      {
        assert r[k] == rest[k - |head|];
        if j >= |head| {
          assert r[j] == rest[j - |head|];
        }
      }
    }
  }

  /** Filtering keeps every occurrence of an accepted value and drops every occurrence of a rejected one. */
  lemma {:induction false} FilterCount<T>(s: seq<T>, p: T -> bool)
    ensures forall x :: multiset(Filter(s, p))[x] == if p(x) then multiset(s)[x] else 0
    decreases |s|
  {
    if |s| > 0 {
      FilterCount(s[1..], p);
      assert s == [s[0]] + s[1..];
      assert multiset(s) == multiset([s[0]]) + multiset(s[1..]);
    }
  }

  lemma {:induction false} FilterAppend<T>(a: seq<T>, b: seq<T>, p: T -> bool)
    ensures Filter(a + b, p) == Filter(a, p) + Filter(b, p)
    decreases |a|
  {
    if |a| == 0 {
      assert a + b == b;
    } else {
      var head: seq<T> := if p(a[0]) then [a[0]] else [];
      calc {
        Filter(a + b, p);
        { assert (a + b)[0] == a[0] && (a + b)[1..] == a[1..] + b; }
        head + Filter(a[1..] + b, p);
        { FilterAppend(a[1..], b, p); }
        head + (Filter(a[1..], p) + Filter(b, p));
        (head + Filter(a[1..], p)) + Filter(b, p);
      }
    }
  }

  /** No element occurs twice. */
  ghost predicate Distinct<T>(s: seq<T>)
  {
    forall p, q :: 0 <= p < q < |s| ==> s[p] != s[q]
  }

  lemma {:induction false} DistinctCount<T>(s: seq<T>, x: T)
    requires Distinct(s)
    ensures multiset(s)[x] <= 1
    decreases |s|
  {
    if |s| > 0 {
      assert s == [s[0]] + s[1..];
      assert Distinct(s[1..]) by {
        forall p, q | 0 <= p < q < |s[1..]|
          ensures s[1..][p] != s[1..][q]
        {
          assert s[1..][p] == s[p + 1] && s[1..][q] == s[q + 1];
        }
      }
      DistinctCount(s[1..], x);
      assert s[0] !in s[1..];
    }
  }

  /** An element at two positions is counted at least twice. */
  lemma CountTwice<T>(s: seq<T>, j: nat, k: nat)
    requires j < k < |s| && s[j] == s[k]
    ensures multiset(s)[s[k]] >= 2
  {
    assert s == s[..k] + [s[k]] + s[k + 1..];
    assert s[..k][j] == s[k];
    assert multiset(s[..k])[s[k]] >= 1;
  }

  /** A sequence whose every element is counted at most once is distinct. */
  lemma CountDistinct<T>(s: seq<T>)
    requires forall x :: multiset(s)[x] <= 1
    ensures Distinct(s)
  {
    forall p, q | 0 <= p < q < |s|
      ensures s[p] != s[q]
    {
      if s[p] == s[q] {
        CountTwice(s, p, q);
      }
    }
  }

  /** Filtering keeps a sequence free of repeats. */
  lemma {:induction false} FilterDistinct<T>(s: seq<T>, p: T -> bool)
    requires Distinct(s)
    ensures Distinct(Filter(s, p))
    decreases |s|
  {
    if |s| > 0 {
      assert Distinct(s[1..]) by {
        forall i, j | 0 <= i < j < |s[1..]|
          ensures s[1..][i] != s[1..][j]
        {
          assert s[1..][i] == s[i + 1] && s[1..][j] == s[j + 1];
        }
      }
      FilterDistinct(s[1..], p);
      assert s[0] !in s[1..];
      assert s[0] !in Filter(s[1..], p);
    }
  }
}
