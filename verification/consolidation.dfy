/**
  The greedy adjacent-pair walk both consolidation passes share, separated
  from its effects on the stores.

  The loop keeps an index `i` into a list of snapshots. When `list[i]` and
  `list[i + 1]` are similar it merges them, pops `list[i + 1]` and stays at
  `i`; otherwise it moves on. The list only ever loses elements and is never
  refreshed, so every decision depends on the original snapshots alone. The
  walk can therefore be stated as a pure plan: the merge pairs in the order
  they are performed, and the snapshots that survive. Each store then applies
  the pairs one after another.

  `PlanRefreshed` is the corrected walk: after a merge it replaces `list[i]`
  with the merged item, so later comparisons see the merged text.
 */
module Consolidation {
  import opened Text
  import opened Sorting

  /** The merges a pass performs, in order, and the list left when it stops. */
  datatype Walk<T> = Walk(merges: seq<(T, T)>, survivors: seq<T>)

  /** `L` with the element at `i + 1` popped. */
  function Pop<T>(L: seq<T>, i: nat): (r: seq<T>)
    requires i + 1 < |L|
    ensures |r| == |L| - 1
    ensures forall k :: 0 <= k <= i ==> r[k] == L[k]
    ensures forall k :: i + 1 <= k < |r| ==> r[k] == L[k + 1]
  {
    L[..i + 1] + L[i + 2..]
  }

  /** The walk as written: `i` stays after a merge and the left snapshot is reused. */
  function Plan<T>(L: seq<T>, i: nat, similar: (T, T) -> bool): (w: Walk<T>)
    requires i <= |L|
    decreases |L| - i
  {
    if i + 1 >= |L| then Walk([], L)
    else if similar(L[i], L[i + 1]) then
      var w := Plan(Pop(L, i), i, similar);
      Walk([(L[i], L[i + 1])] + w.merges, w.survivors)
    else Plan(L, i + 1, similar)
  }

  /** Each merge removes exactly one element, and a list of fewer than two elements is left alone. */
  lemma {:induction false} PlanCounts<T>(L: seq<T>, i: nat, similar: (T, T) -> bool)
    requires i <= |L|
    ensures |Plan(L, i, similar).merges| + |Plan(L, i, similar).survivors| == |L|
    ensures |L| < 2 ==> Plan(L, i, similar) == Walk([], L)
    decreases |L| - i
  {
    if i + 1 < |L| {
      if similar(L[i], L[i + 1]) {
        PlanCounts(Pop(L, i), i, similar);
      } else {
        PlanCounts(L, i + 1, similar);
      }
    }
  }

  /**
    What the walk guarantees when it stops: every merged pair was similar,
    its left element is a surviving snapshot, and no two neighbouring
    survivors from position `i` on are similar.
   */
  lemma {:induction false} PlanOutcome<T>(L: seq<T>, i: nat, similar: (T, T) -> bool)
    requires i <= |L|
    ensures forall k :: 0 <= k < |Plan(L, i, similar).merges| ==>
      similar(Plan(L, i, similar).merges[k].0, Plan(L, i, similar).merges[k].1)
    ensures forall k :: 0 <= k < |Plan(L, i, similar).merges| ==>
      Plan(L, i, similar).merges[k].0 in Plan(L, i, similar).survivors
    ensures forall k :: i <= k && k + 1 < |Plan(L, i, similar).survivors| ==>
      !similar(Plan(L, i, similar).survivors[k], Plan(L, i, similar).survivors[k + 1])
    decreases |L| - i
  {
    if i + 1 < |L| {
      if similar(L[i], L[i + 1]) {
        var L' := Pop(L, i);
        PlanOutcome(L', i, similar);
        PlanCounts(L', i, similar);
        var w := Plan(L', i, similar);
        assert w.survivors[i] == L'[i] == L[i] by {
          assert w.survivors[..i + 1] == L'[..i + 1] by { PlanKeepsPrefix(L', i, similar); }
        }
      } else {
        PlanOutcome(L, i + 1, similar);
        PlanKeepsPrefix(L, i + 1, similar);
        var w := Plan(L, i + 1, similar);
        assert w.survivors[i] == L[i] && w.survivors[i + 1] == L[i + 1] by {
          assert w.survivors[..i + 2][i] == w.survivors[i];
          assert w.survivors[..i + 2][i + 1] == w.survivors[i + 1];
        }
      }
    }
  }

  /** Positions up to and including `i` are never popped. */
  lemma {:induction false} PlanKeepsPrefix<T>(L: seq<T>, i: nat, similar: (T, T) -> bool)
    requires i < |L|
    ensures |Plan(L, i, similar).survivors| > i
    ensures Plan(L, i, similar).survivors[..i + 1] == L[..i + 1]
    decreases |L| - i
  {
    if i + 1 < |L| {
      if similar(L[i], L[i + 1]) {
        PlanKeepsPrefix(Pop(L, i), i, similar);
        assert Pop(L, i)[..i + 1] == L[..i + 1];
      } else {
        PlanKeepsPrefix(L, i + 1, similar);
        assert Plan(L, i, similar).survivors[..i + 2][..i + 1] == Plan(L, i, similar).survivors[..i + 1];
      }
    }
  }

  /** The right-hand elements of the merge pairs: the snapshots each merge deletes. */
  function Rights<T>(merges: seq<(T, T)>): (r: seq<T>)
    ensures |r| == |merges| && forall k :: 0 <= k < |merges| ==> r[k] == merges[k].1
  {
    seq(|merges|, k requires 0 <= k < |merges| => merges[k].1)
  }

  /** Every snapshot is either deleted by exactly one merge or survives. */
  lemma {:induction false} PlanPartition<T>(L: seq<T>, i: nat, similar: (T, T) -> bool)
    requires i <= |L|
    ensures multiset(Rights(Plan(L, i, similar).merges)) + multiset(Plan(L, i, similar).survivors) == multiset(L)
    decreases |L| - i
  {
    if i + 1 < |L| {
      if similar(L[i], L[i + 1]) {
        var L' := Pop(L, i);
        PlanPartition(L', i, similar);
        var w := Plan(L', i, similar);
        assert Rights([(L[i], L[i + 1])] + w.merges) == [L[i + 1]] + Rights(w.merges);
        assert L == L[..i + 1] + [L[i + 1]] + L[i + 2..];
        assert multiset(L) == multiset(L') + multiset{L[i + 1]};
      } else {
        PlanPartition(L, i + 1, similar);
      }
    }
  }

  /**
    On a list without repeats, the walk deletes each snapshot at most once,
    never deletes a snapshot that is the left side of some merge, and only
    ever touches members of the list.
   */
  lemma PlanDisjoint<T>(L: seq<T>, similar: (T, T) -> bool)
    requires Distinct(L)
    ensures var w := Plan(L, 0, similar);
      && (forall j, k :: 0 <= j < k < |w.merges| ==> w.merges[j].1 != w.merges[k].1)
      && (forall j, k :: 0 <= j < |w.merges| && 0 <= k < |w.merges| ==> w.merges[j].1 != w.merges[k].0)
      && (forall k :: 0 <= k < |w.merges| ==> w.merges[k].0 in L && w.merges[k].1 in L)
  {
    var w := Plan(L, 0, similar);
    var R := Rights(w.merges);
    PlanPartition(L, 0, similar);
    PlanOutcome(L, 0, similar);
    forall j, k | 0 <= j < k < |w.merges|
      ensures w.merges[j].1 != w.merges[k].1
    {
      if R[j] == R[k] {
        CountTwice(R, j, k);
        DistinctCount(L, R[k]);
      }
    }
    forall j, k | 0 <= j < |w.merges| && 0 <= k < |w.merges|
      ensures w.merges[j].1 != w.merges[k].0
    {
      var x := w.merges[k].0;
      assert x in w.survivors;
      if R[j] == x {
        assert R[j] in multiset(R);
        DistinctCount(L, x);
      }
    }
    forall k | 0 <= k < |w.merges|
      ensures w.merges[k].0 in L && w.merges[k].1 in L
    {
      assert w.merges[k].0 in w.survivors;
      assert w.merges[k].0 in multiset(L);
      assert R[k] in multiset(R);
      assert w.merges[k].1 in multiset(L);
    }
  }

  /**
    The stale left snapshot: when `a` is similar to both `b` and `c`, the walk
    merges `a` with `b` and then the ORIGINAL `a` with `c`, whatever the
    merged text of `a` and `b` would have been like.
   */
  lemma StaleLeftPlan<T>(a: T, b: T, c: T, similar: (T, T) -> bool)
    requires similar(a, b) && similar(a, c)
    ensures Plan([a, b, c], 0, similar) == Walk([(a, b), (a, c)], [a])
  {
    var L := [a, b, c];
    assert L[0] == a && L[1] == b;
    assert Pop(L, 0) == [a, c];
    assert [a, c][0] == a && [a, c][1] == c;
    assert Pop([a, c], 0) == [a];
    assert Plan([a], 0, similar) == Walk([], [a]);
    assert Plan([a, c], 0, similar) == Walk([(a, c)], [a]);
  }

  /**
    The `while` loop itself, with the index and the shrinking list as the
    source keeps them; it performs exactly the planned merges.
   */
  method RunWalk<T>(L: seq<T>, similar: (T, T) -> bool) returns (merges: seq<(T, T)>, survivors: seq<T>)
    ensures Walk(merges, survivors) == Plan(L, 0, similar)
    ensures |merges| + |survivors| == |L|
  {
    var list := L;
    var i := 0;
    merges := [];
    while i + 1 < |list|
      invariant i <= |list|
      invariant Walk(merges + Plan(list, i, similar).merges, Plan(list, i, similar).survivors) == Plan(L, 0, similar)
      decreases |list| - i
    {
      if similar(list[i], list[i + 1]) {
        merges := merges + [(list[i], list[i + 1])];
        list := Pop(list, i);
      } else {
        i := i + 1;
      }
    }
    survivors := list;
    PlanCounts(L, 0, similar);
  }

  /** The corrected walk: after a merge the merged item replaces the left snapshot. */
  function PlanRefreshed<T>(L: seq<T>, i: nat, similar: (T, T) -> bool, merge: (T, T) -> T): (w: Walk<T>)
    requires i <= |L|
    ensures |w.merges| + |w.survivors| == |L|
    decreases |L| - i
  {
    if i + 1 >= |L| then Walk([], L)
    else if similar(L[i], L[i + 1]) then
      var w := PlanRefreshed(Replace(L, i, merge(L[i], L[i + 1])), i, similar, merge);
      Walk([(L[i], L[i + 1])] + w.merges, w.survivors)
    else PlanRefreshed(L, i + 1, similar, merge)
  }

  /** `L` with `L[i]` replaced by `x` and `L[i + 1]` popped. */
  function Replace<T>(L: seq<T>, i: nat, x: T): (r: seq<T>)
    requires i + 1 < |L|
    ensures |r| == |L| - 1 && r[i] == x
    ensures forall k :: 0 <= k < i ==> r[k] == L[k]
    ensures forall k :: i + 1 <= k < |r| ==> r[k] == L[k + 1]
  {
    L[..i] + [x] + L[i + 2..]
  }

  /** With three items where `a` merges with `b` and the merged item with `c`, one item holding all three is left. */
  lemma RefreshedPlan<T>(a: T, b: T, c: T, similar: (T, T) -> bool, merge: (T, T) -> T)
    requires similar(a, b) && similar(merge(a, b), c)
    ensures PlanRefreshed([a, b, c], 0, similar, merge)
         == Walk([(a, b), (merge(a, b), c)], [merge(merge(a, b), c)])
  {
    var L := [a, b, c];
    var ab := merge(a, b);
    assert L[0] == a && L[1] == b;
    assert Replace(L, 0, ab) == [ab, c];
    assert [ab, c][0] == ab && [ab, c][1] == c;
    assert Replace([ab, c], 0, merge(ab, c)) == [merge(ab, c)];
    assert PlanRefreshed([merge(ab, c)], 0, similar, merge) == Walk([], [merge(ab, c)]);
    assert PlanRefreshed([ab, c], 0, similar, merge) == Walk([(ab, c)], [merge(ab, c)]);
  }

  /** The texts of a list of items. */
  function Texts<T>(L: seq<T>, text: T -> string): (r: seq<string>)
    ensures |r| == |L| && forall k :: 0 <= k < |L| ==> r[k] == text(L[k])
  {
    seq(|L|, k requires 0 <= k < |L| => text(L[k]))
  }

  /** Joining two neighbouring parts first does not change the newline-joined whole. */
  lemma {:induction false} JoinMergeAdjacent(parts: seq<string>, i: nat)
    requires i + 1 < |parts|
    ensures Join(parts[..i] + [parts[i] + "\n" + parts[i + 1]] + parts[i + 2..], "\n") == Join(parts, "\n")
    decreases i
  {
    var merged := parts[..i] + [parts[i] + "\n" + parts[i + 1]] + parts[i + 2..];
    if i == 0 {
      assert merged == [parts[0] + "\n" + parts[1]] + parts[2..];
      if |parts| == 2 {
        assert Join(parts[1..], "\n") == parts[1];
      } else {
        assert merged[1..] == parts[2..];
        assert parts[1..][1..] == parts[2..];
        assert Join(parts[1..], "\n") == parts[1] + "\n" + Join(parts[2..], "\n");
      }
    } else {
      var tail := parts[1..];
      JoinMergeAdjacent(tail, i - 1);
      assert merged[0] == parts[0];
      assert merged[1..] == tail[..i - 1] + [tail[i - 1] + "\n" + tail[i]] + tail[i + 1..];
    }
  }

  /** The texts after a replacement: the replaced pair's place holds the new item's text. */
  lemma TextsReplace<T>(L: seq<T>, i: nat, x: T, text: T -> string)
    requires i + 1 < |L|
    ensures Texts(Replace(L, i, x), text) == Texts(L, text)[..i] + [text(x)] + Texts(L, text)[i + 2..]
  {
    var a, b := Texts(Replace(L, i, x), text), Texts(L, text)[..i] + [text(x)] + Texts(L, text)[i + 2..];
    assert |a| == |b|;
    forall k | 0 <= k < |a|
      ensures a[k] == b[k]
    {
      if k < i {
        assert b[k] == Texts(L, text)[k];
      } else if k > i {
        assert b[k] == Texts(L, text)[k + 1];
      }
    }
  }

  /**
    The corrected walk loses no text: when the merged item's text is the two
    texts joined by a newline, the survivors' texts, newline-joined, are the
    original items' texts newline-joined.
   */
  lemma {:induction false} RefreshedPlanKeepsText<T>(L: seq<T>, i: nat, similar: (T, T) -> bool,
                                                     merge: (T, T) -> T, text: T -> string)
    requires i <= |L|
    requires forall x, y :: text(merge(x, y)) == text(x) + "\n" + text(y)
    ensures Join(Texts(PlanRefreshed(L, i, similar, merge).survivors, text), "\n") == Join(Texts(L, text), "\n")
    decreases |L| - i
  {
    if i + 1 < |L| {
      if similar(L[i], L[i + 1]) {
        var L' := Replace(L, i, merge(L[i], L[i + 1]));
        RefreshedPlanKeepsText(L', i, similar, merge, text);
        var parts := Texts(L, text);
        JoinMergeAdjacent(parts, i);
        TextsReplace(L, i, merge(L[i], L[i + 1]), text);
      } else {
        RefreshedPlanKeepsText(L, i + 1, similar, merge, text);
      }
    }
  }

  /** The distinct keys of `s`, in order of first appearance (the keys of a dict filled while scanning `s`). */
  function KeysInOrder<T, K(==)>(s: seq<T>, key: T -> K, seen: seq<K>): (ks: seq<K>)
    ensures seen <= ks
    ensures forall k :: 0 <= k < |s| ==> key(s[k]) in ks
    ensures forall x :: x in ks ==> x in seen || exists k :: 0 <= k < |s| && key(s[k]) == x
    ensures (forall p, q :: 0 <= p < q < |seen| ==> seen[p] != seen[q]) ==>
      forall p, q :: 0 <= p < q < |ks| ==> ks[p] != ks[q]
    decreases |s|
  {
    if |s| == 0 then seen
    else
      var next := if key(s[0]) in seen then seen else seen + [key(s[0])];
      var ks := KeysInOrder(s[1..], key, next);
      assert forall k :: 1 <= k < |s| ==> s[k] == s[1..][k - 1];
      assert key(s[0]) in next;
      assert key(s[0]) in ks by {
        var p :| 0 <= p < |next| && next[p] == key(s[0]);
        assert ks[p] == next[p];
      }
      ks
  }

  /**
    A key `KeysInOrder` adds after `seen` comes later than every key before
    it: wherever it occurs in `s`, each earlier key is in `seen` or occurs
    before that position.
   */
  lemma {:induction false} KeysInOrderFirst<T, K>(s: seq<T>, key: T -> K, seen: seq<K>, p: nat, q: nat, k: nat)
    requires Distinct(seen)
    requires |seen| <= q < |KeysInOrder(s, key, seen)| && p < q
    requires k < |s| && key(s[k]) == KeysInOrder(s, key, seen)[q]
    ensures KeysInOrder(s, key, seen)[p] in seen ||
      exists i :: 0 <= i < k && key(s[i]) == KeysInOrder(s, key, seen)[p]
    decreases |s|
  {
    var ks := KeysInOrder(s, key, seen);
    var next := if key(s[0]) in seen then seen else seen + [key(s[0])];
    DistinctSnoc(seen, key(s[0]));
    assert ks == KeysInOrder(s[1..], key, next);
    if key(s[0]) !in seen && q == |seen| {
      assert ks[p] == seen[p];
    } else {
      HeadKeyEarly(s, key, seen, q);
      assert k > 0;
      assert s[1..][k - 1] == s[k];
      KeysInOrderFirst(s[1..], key, next, p, q, k - 1);
      ShiftWitness(s, key, seen, ks[p], k);
    }
  }

  /**
    The key of the first element is in `seen` or is the first key added
    after it, so it differs from any key added later.
   */
  lemma HeadKeyEarly<T, K>(s: seq<T>, key: T -> K, seen: seq<K>, q: nat)
    requires Distinct(seen) && |s| > 0
    requires |seen| <= q < |KeysInOrder(s, key, seen)|
    requires key(s[0]) in seen || q > |seen|
    ensures KeysInOrder(s, key, seen)[q] != key(s[0])
  {
    var ks := KeysInOrder(s, key, seen);
    if key(s[0]) in seen {
      var j :| 0 <= j < |seen| && seen[j] == key(s[0]);
      assert ks[j] == seen[j];
    } else {
      assert ks == KeysInOrder(s[1..], key, seen + [key(s[0])]);
      assert ks[|seen|] == (seen + [key(s[0])])[|seen|];
    }
  }

  /** Appending a new element keeps a sequence free of repeats. */
  lemma DistinctSnoc<K>(seen: seq<K>, x: K)
    requires Distinct(seen)
    ensures x !in seen ==> Distinct(seen + [x])
  {
    if x !in seen {
      var t := seen + [x];
      forall p, q | 0 <= p < q < |t|
        ensures t[p] != t[q]
      {
        if q == |seen| {
          assert t[p] == seen[p];
        } else {
          assert t[p] == seen[p] && t[q] == seen[q];
        }
      }
    }
  }

  /** A key seen after the first element's step, or before position `k - 1` of the tail, is seen before position `k`. */
  lemma ShiftWitness<T, K>(s: seq<T>, key: T -> K, seen: seq<K>, x: K, k: nat)
    requires 0 < k <= |s|
    requires x in (if key(s[0]) in seen then seen else seen + [key(s[0])]) ||
      exists i :: 0 <= i < k - 1 && key(s[1..][i]) == x
    ensures x in seen || exists i :: 0 <= i < k && key(s[i]) == x
  {
    if x !in seen && x != key(s[0]) {
      var i :| 0 <= i < k - 1 && key(s[1..][i]) == x;
      assert s[i + 1] == s[1..][i];
    }
  }

  /** The members of `s` with key `x`, in their order in `s`. */
  function GroupOf<T, K(==)>(s: seq<T>, key: T -> K, x: K): (g: seq<T>)
    ensures |g| <= |s|
    ensures forall k :: 0 <= k < |g| ==> key(g[k]) == x && g[k] in s
    ensures (exists k :: 0 <= k < |s| && key(s[k]) == x) ==> |g| > 0
    ensures Distinct(s) ==> Distinct(g)
    decreases |s|
  {
    if |s| == 0 then []
    else
      assert forall k :: 1 <= k < |s| ==> s[k] == s[1..][k - 1];
      var rest := GroupOf(s[1..], key, x);
      assert Distinct(s) ==> Distinct(s[1..]) && s[0] !in rest by {
        if Distinct(s) {
          forall p, q | 0 <= p < q < |s[1..]|
            ensures s[1..][p] != s[1..][q]
          {
            assert s[1..][p] == s[p + 1] && s[1..][q] == s[q + 1];
          }
          assert s[0] !in s[1..];
        }
      }
      (if key(s[0]) == x then [s[0]] else []) + rest
  }

  /**
    Grouping by key: one non-empty group per distinct key, groups in order of
    the key's first appearance, members in their original order.
   */
  function GroupBy<T, K(==)>(s: seq<T>, key: T -> K): (gs: seq<seq<T>>)
    ensures forall g :: g in gs ==> |g| > 0
    ensures forall j :: 0 <= j < |gs| ==> forall k :: 0 <= k < |gs[j]| ==> key(gs[j][k]) == key(gs[j][0]) && gs[j][k] in s
    ensures forall p, q :: 0 <= p < q < |gs| ==> key(gs[p][0]) != key(gs[q][0])
    ensures forall j :: 0 <= j < |gs| ==> gs[j] == GroupOf(s, key, key(gs[j][0]))
  {
    var ks := KeysInOrder(s, key, []);
    var gs := seq(|ks|, j requires 0 <= j < |ks| => GroupOf(s, key, ks[j]));
    forall j | 0 <= j < |gs|
      ensures |gs[j]| > 0 && key(gs[j][0]) == ks[j]
    {
      assert ks[j] in ks;
      var k :| 0 <= k < |s| && key(s[k]) == ks[j];
    }
    gs
  }

  /**
    Groups come in order of their key's first appearance: wherever a later
    group's key occurs in `s`, an earlier group's key has already occurred.
   */
  lemma GroupByOrder<T, K>(s: seq<T>, key: T -> K, p: nat, q: nat, k: nat)
    requires p < q < |GroupBy(s, key)|
    requires k < |s| && key(s[k]) == key(GroupBy(s, key)[q][0])
    ensures exists i :: 0 <= i < k && key(s[i]) == key(GroupBy(s, key)[p][0])
  {
    var ks := KeysInOrder(s, key, []);
    var gs := GroupBy(s, key);
    assert gs[p] == GroupOf(s, key, ks[p]) && gs[q] == GroupOf(s, key, ks[q]);
    assert key(gs[p][0]) == ks[p] && key(gs[q][0]) == ks[q];
    KeysInOrderFirst(s, key, [], p, q, k);
  }

  /** Every element's key has its group: grouping loses nothing. */
  lemma GroupByCovers<T, K>(s: seq<T>, key: T -> K)
    ensures forall k :: 0 <= k < |s| ==>
      exists j :: 0 <= j < |GroupBy(s, key)| && key(GroupBy(s, key)[j][0]) == key(s[k])
  {
    var ks := KeysInOrder(s, key, []);
    var gs := GroupBy(s, key);
    forall k | 0 <= k < |s|
      ensures exists j :: 0 <= j < |gs| && key(gs[j][0]) == key(s[k])
    {
      var j :| 0 <= j < |ks| && ks[j] == key(s[k]);
      assert gs[j] == GroupOf(s, key, ks[j]);
    }
  }
}
