/**
  What HASH_SRT of uthash.h computes: the merge sort of a doubly linked list, with the links as they are on the way.
 */
module HashSort {
  import opened Basics

  /** The comparison of the caller: cmp(x, y) <= 0. */
  type Le = (Ptr, Ptr) -> bool

  ghost predicate Preorder(le: Le) {
    && (forall x, y {:trigger Comparable(le, x, y)} :: Comparable(le, x, y))
    && (forall x, y, z {:trigger Chained(le, x, y, z)} :: Chained(le, x, y, z))
  }

  predicate Comparable(le: Le, x: Ptr, y: Ptr) { le(x, y) || le(y, x) }
  predicate Chained(le: Le, x: Ptr, y: Ptr, z: Ptr) { le(x, y) && le(y, z) ==> le(x, z) }

  // ---- what the passes compute -----------------------------------------------------------------------

  /** The earlier run wins a tie. */
  function Merge(le: Le, a: seq<Ptr>, b: seq<Ptr>): seq<Ptr>
    decreases |a| + |b|
  {
    if |a| == 0 then b
    else if |b| == 0 then a
    else if le(a[0], b[0]) then [a[0]] + Merge(le, a[1..], b)
    else [b[0]] + Merge(le, a, b[1..])
  }

  /** One pass: neighbouring runs of s items are merged two by two. */
  function Pass(le: Le, l: seq<Ptr>, s: nat): seq<Ptr>
    requires s > 0
    decreases |l|
  {
    if |l| == 0 then []
    else
      var m, n := Min(s, |l|), Min(2 * s, |l|);
      Merge(le, l[..m], l[m..n]) + Pass(le, l[n..], s)
  }

  lemma {:induction false} MergeLength(le: Le, a: seq<Ptr>, b: seq<Ptr>)
    ensures |Merge(le, a, b)| == |a| + |b|
    ensures multiset(Merge(le, a, b)) == multiset(a) + multiset(b)
    decreases |a| + |b|
  {
    if |a| > 0 && |b| > 0 {
      assert a == [a[0]] + a[1..] && b == [b[0]] + b[1..];
      if le(a[0], b[0]) {
        MergeLength(le, a[1..], b);
      } else {
        MergeLength(le, a, b[1..]);
      }
    }
  }

  lemma InThree(l: seq<Ptr>, m: nat, n: nat)
    requires m <= n <= |l|
    ensures l == l[..m] + l[m..n] + l[n..]
  {
  }

  lemma {:induction false} PassLength(le: Le, l: seq<Ptr>, s: nat)
    requires s > 0
    ensures |Pass(le, l, s)| == |l| && multiset(Pass(le, l, s)) == multiset(l)
    decreases |l|
  {
    if |l| > 0 {
      var m, n := Min(s, |l|), Min(2 * s, |l|);
      MergeLength(le, l[..m], l[m..n]);
      PassLength(le, l[n..], s);
      InThree(l, m, n);
    }
  }

  /** All passes from run size s on; the last one is that which makes one merge. */
  function Passes(le: Le, l: seq<Ptr>, s: nat): seq<Ptr>
    requires s > 0
    decreases if |l| > s then |l| - s else 0
  {
    PassLength(le, l, s);
    if |l| <= 2 * s then Pass(le, l, s) else Passes(le, Pass(le, l, s), 2 * s)
  }

  // ---- the passes sort, and keep the order of equal items ---------------------------------------------

  /** x is to come before y: it is less, or equal and was before y in the list as it was, where at gives positions. */
  predicate Precedes(le: Le, at: Ptr -> int, x: Ptr, y: Ptr) {
    le(x, y) && (le(y, x) ==> at(x) < at(y))
  }

  ghost predicate Ordered(le: Le, at: Ptr -> int, l: seq<Ptr>) {
    forall i, j :: 0 <= i < j < |l| ==> Precedes(le, at, l[i], l[j])
  }

  ghost predicate AllIn(at: Ptr -> int, l: seq<Ptr>, lo: int, hi: int) {
    forall x :: x in l ==> lo <= at(x) < hi
  }

  lemma {:induction false} MergeMembers(le: Le, a: seq<Ptr>, b: seq<Ptr>, x: Ptr)
    ensures x in Merge(le, a, b) <==> x in a || x in b
    decreases |a| + |b|
  {
    if |a| > 0 && |b| > 0 {
      assert x in a <==> x == a[0] || x in a[1..];
      assert x in b <==> x == b[0] || x in b[1..];
      if le(a[0], b[0]) {
        MergeMembers(le, a[1..], b, x);
      } else {
        MergeMembers(le, a, b[1..], x);
      }
    }
  }

  lemma OrderedTail(le: Le, at: Ptr -> int, l: seq<Ptr>)
    requires Ordered(le, at, l) && |l| > 0
    ensures Ordered(le, at, l[1..]) && forall x :: x in l[1..] ==> Precedes(le, at, l[0], x)
  {
  }

  lemma OrderedCons(le: Le, at: Ptr -> int, x: Ptr, l: seq<Ptr>)
    requires Ordered(le, at, l) && forall y :: y in l ==> Precedes(le, at, x, y)
    ensures Ordered(le, at, [x] + l)
  {
  }

  lemma {:induction false} MergeOrders(le: Le, at: Ptr -> int, a: seq<Ptr>, b: seq<Ptr>, lo: int, mid: int, hi: int)
    requires Preorder(le) && Ordered(le, at, a) && Ordered(le, at, b) && AllIn(at, a, lo, mid) && AllIn(at, b, mid, hi)
    ensures Ordered(le, at, Merge(le, a, b))
    decreases |a| + |b|
  {
    if |a| > 0 && |b| > 0 {
      OrderedTail(le, at, a);
      OrderedTail(le, at, b);
      if le(a[0], b[0]) {
        MergeOrders(le, at, a[1..], b, lo, mid, hi);
        forall y | y in Merge(le, a[1..], b) ensures Precedes(le, at, a[0], y) {
          MergeMembers(le, a[1..], b, y);
          assert Chained(le, a[0], b[0], y);
          assert y in b ==> y == b[0] || y in b[1..];
        }
        OrderedCons(le, at, a[0], Merge(le, a[1..], b));
      } else {
        MergeOrders(le, at, a, b[1..], lo, mid, hi);
        forall y | y in Merge(le, a, b[1..]) ensures Precedes(le, at, b[0], y) {
          MergeMembers(le, a, b[1..], y);
          assert Comparable(le, a[0], b[0]) && Chained(le, b[0], a[0], y) && Chained(le, a[0], y, b[0]);
          assert y in a ==> y == a[0] || y in a[1..];
        }
        OrderedCons(le, at, b[0], Merge(le, a, b[1..]));
      }
    }
  }

  /** Runs of s items, each in order and with the positions that its items had. */
  ghost predicate Runs(le: Le, at: Ptr -> int, l: seq<Ptr>, s: nat, base: int)
    requires s > 0
    decreases |l|
  {
    |l| > 0 ==>
      var n := Min(s, |l|);
      Ordered(le, at, l[..n]) && AllIn(at, l[..n], base, base + n) && Runs(le, at, l[n..], s, base + n)
  }

  // The first two runs become one.
  lemma FirstPair(le: Le, at: Ptr -> int, l: seq<Ptr>, s: nat, base: int)
    requires s > 0 && |l| > 0 && Preorder(le) && Runs(le, at, l, s, base)
    ensures var m, n := Min(s, |l|), Min(2 * s, |l|);
            var first := Merge(le, l[..m], l[m..n]);
            |first| == n && Ordered(le, at, first) && AllIn(at, first, base, base + n)
  {
    var m, n := Min(s, |l|), Min(2 * s, |l|);
    SecondRun(le, at, l, s, base);
    MergedRun(le, at, l[..m], l[m..n], base, base + m, base + n);
    MergeLength(le, l[..m], l[m..n]);
  }

  lemma {:induction false} PassDoublesRuns(le: Le, at: Ptr -> int, l: seq<Ptr>, s: nat, base: int)
    requires s > 0 && Preorder(le) && Runs(le, at, l, s, base)
    ensures Runs(le, at, Pass(le, l, s), 2 * s, base)
    decreases |l|
  {
    if |l| > 0 {
      var m, n := Min(s, |l|), Min(2 * s, |l|);
      SecondRun(le, at, l, s, base);
      PassDoublesRuns(le, at, l[n..], s, base + n);
      FirstPair(le, at, l, s, base);
      PassLength(le, l[n..], s);
      var first, rest := Merge(le, l[..m], l[m..n]), Pass(le, l[n..], s);
      assert |first| == n && n + |rest| == |l|;
      RunsOfParts(le, at, first, rest, 2 * s, base, n);
    }
  }

  lemma MergedRun(le: Le, at: Ptr -> int, a: seq<Ptr>, b: seq<Ptr>, lo: int, mid: int, hi: int)
    requires Preorder(le) && Ordered(le, at, a) && Ordered(le, at, b) && AllIn(at, a, lo, mid) && AllIn(at, b, mid, hi)
    requires lo <= mid <= hi
    ensures Ordered(le, at, Merge(le, a, b)) && AllIn(at, Merge(le, a, b), lo, hi)
  {
    MergeOrders(le, at, a, b, lo, mid, hi);
    forall x | x in Merge(le, a, b) ensures lo <= at(x) < hi { MergeMembers(le, a, b, x); }
  }

  lemma RunsOfParts(le: Le, at: Ptr -> int, first: seq<Ptr>, rest: seq<Ptr>, s: nat, base: int, n: nat)
    requires s > 0 && n == |first| > 0 && n == Min(s, n + |rest|)
    requires Ordered(le, at, first) && AllIn(at, first, base, base + n) && Runs(le, at, rest, s, base + n)
    ensures Runs(le, at, first + rest, s, base)
  {
    var all := first + rest;
    assert all[..|first|] == first && all[|first|..] == rest;
  }

  lemma SecondRun(le: Le, at: Ptr -> int, l: seq<Ptr>, s: nat, base: int)
    requires s > 0 && |l| > 0 && Runs(le, at, l, s, base)
    ensures var m, n := Min(s, |l|), Min(2 * s, |l|);
            Ordered(le, at, l[..m]) && AllIn(at, l[..m], base, base + m) && Ordered(le, at, l[m..n])
                && AllIn(at, l[m..n], base + m, base + n) && Runs(le, at, l[n..], s, base + n)
  {
    var m, n := Min(s, |l|), Min(2 * s, |l|);
    var r := l[m..];
    if |r| > 0 {
      assert Min(s, |r|) == n - m && r[..n - m] == l[m..n] && r[n - m..] == l[n..];
    } else {
      assert l[m..n] == [] && l[n..] == [];
    }
  }

  lemma {:induction false} PassesSort(le: Le, at: Ptr -> int, l: seq<Ptr>, s: nat)
    requires s > 0 && Preorder(le) && Runs(le, at, l, s, 0)
    ensures Ordered(le, at, Passes(le, l, s)) && multiset(Passes(le, l, s)) == multiset(l)
    decreases if |l| > s then |l| - s else 0
  {
    PassLength(le, l, s);
    PassDoublesRuns(le, at, l, s, 0);
    if |l| <= 2 * s {
      var r := Pass(le, l, s);
      assert r[..|r|] == r;
    } else {
      PassesSort(le, at, Pass(le, l, s), 2 * s);
    }
  }

  lemma {:induction false} SinglesAreRuns(le: Le, at: Ptr -> int, l: seq<Ptr>, base: int)
    requires forall k :: 0 <= k < |l| ==> at(l[k]) == base + k
    ensures Runs(le, at, l, 1, base)
    decreases |l|
  {
    if |l| > 0 {
      SinglesAreRuns(le, at, l[1..], base + 1);
    }
  }

  /** r is l sorted, with items that compare equal in their old order. */
  ghost predicate StableSorted(le: Le, l: seq<Ptr>, r: seq<Ptr>) {
    && multiset(r) == multiset(l)
    && exists at: Ptr -> int :: (forall k :: 0 <= k < |l| ==> at(l[k]) == k) && Ordered(le, at, r)
  }

  lemma SortIsStable(le: Le, l: seq<Ptr>)
    requires Preorder(le) && Distinct(l)
    ensures StableSorted(le, l, Passes(le, l, 1))
  {
    var at := x => Position(l, x);
    forall k | 0 <= k < |l| ensures at(l[k]) == k { PositionOf(l, k); }
    SinglesAreRuns(le, at, l, 0);
    PassesSort(le, at, l, 1);
  }

  function Position(l: seq<Ptr>, x: Ptr): int {
    if |l| == 0 then 0 else if l[0] == x then 0 else 1 + Position(l[1..], x)
  }

  lemma {:induction false} PositionOf(l: seq<Ptr>, k: nat)
    requires k < |l| && Distinct(l)
    ensures Position(l, l[k]) == k
  {
    if k > 0 {
      PositionOf(l[1..], k - 1);
    }
  }

  // ---- the list in memory ------------------------------------------------------------------------------

  function At(l: seq<Ptr>, i: nat): Ptr {
    if i < |l| then l[i] else NULL
  }

  function Last(l: seq<Ptr>): Ptr {
    if |l| > 0 then l[|l| - 1] else NULL
  }

  ghost predicate PrevOk(prev: map<Ptr, Ptr>, l: seq<Ptr>, i: nat)
    requires i < |l|
  {
    l[i] in prev && prev[l[i]] == if i > 0 then l[i - 1] else NULL
  }

  ghost predicate NextOk(next: map<Ptr, Ptr>, l: seq<Ptr>, i: nat)
    requires i < |l|
  {
    l[i] in next && next[l[i]] == At(l, i + 1)
  }

  /** The application-order list of a table: l, linked both ways, from head to tail. */
  ghost predicate Linked(next: map<Ptr, Ptr>, prev: map<Ptr, Ptr>, head: Ptr, tail: Ptr, l: seq<Ptr>) {
    && head == At(l, 0) && tail == Last(l) && NULL !in l && Distinct(l)
    && (forall i {:trigger NextOk(next, l, i)} :: 0 <= i < |l| ==> NextOk(next, l, i))
    && (forall i {:trigger PrevOk(prev, l, i)} :: 0 <= i < |l| ==> PrevOk(prev, l, i))
  }

  /** The new list so far: linked but for the end. */
  ghost predicate Built(next: map<Ptr, Ptr>, prev: map<Ptr, Ptr>, list: Ptr, tail: Ptr, o: seq<Ptr>) {
    && list == At(o, 0) && tail == Last(o) && NULL !in o && Distinct(o)
    && (forall i {:trigger NextOk(next, o, i)} :: 0 <= i < |o| - 1 ==> NextOk(next, o, i))
    && (forall i {:trigger PrevOk(prev, o, i)} :: 0 <= i < |o| ==> PrevOk(prev, o, i))
  }

  /** Positions i..j of the old list l are still linked, and not in the new list o. */
  ghost predicate Waiting(next: map<Ptr, Ptr>, l: seq<Ptr>, i: nat, j: nat, o: seq<Ptr>) {
    j <= |l| && forall k {:trigger Waits(next, l, k, o)} :: i <= k < j ==> Waits(next, l, k, o)
  }

  ghost predicate Waits(next: map<Ptr, Ptr>, l: seq<Ptr>, k: nat, o: seq<Ptr>)
    requires k < |l|
  {
    NextOk(next, l, k) && l[k] !in o
  }

  lemma AppendBuilds(next: map<Ptr, Ptr>, prev: map<Ptr, Ptr>, list: Ptr, tail: Ptr, o: seq<Ptr>, e: Ptr)
    requires Built(next, prev, list, tail, o) && e !in o && e != NULL && (tail != NULL ==> tail in next)
    ensures Built(if tail != NULL then next[tail := e] else next, prev[e := tail],
                  if tail != NULL then list else e, e, o + [e])
  {
    var o' := o + [e];
    var next', prev' := if tail != NULL then next[tail := e] else next, prev[e := tail];
    assert |o| > 0 ==> o[|o| - 1] in o;
    forall i | 0 <= i < |o'| - 1 ensures NextOk(next', o', i) {
      if i < |o| - 1 {
        assert NextOk(next, o, i);
      }
    }
    forall i | 0 <= i < |o'| ensures PrevOk(prev', o', i) {
      if i < |o| {
        assert PrevOk(prev, o, i) && o[i] in o;
      }
    }
    forall i | 0 <= i < |o| ensures o[i] != e { assert o[i] in o; }
  }

  lemma AppendWaits(next: map<Ptr, Ptr>, tail: Ptr, e: Ptr, l: seq<Ptr>, i: nat, j: nat, o: seq<Ptr>)
    requires Waiting(next, l, i, j, o) && (tail != NULL ==> tail in o)
    requires forall k :: i <= k < j ==> l[k] != e
    ensures Waiting(if tail != NULL then next[tail := e] else next, l, i, j, o + [e])
  {
    var next' := if tail != NULL then next[tail := e] else next;
    forall k | i <= k < j ensures Waits(next', l, k, o + [e]) { assert Waits(next, l, k, o); }
  }

  ghost predicate Counted(l: seq<Ptr>, size: nat, k: nat, merges: nat) {
    if merges == 0 then k == 0 else if merges == 1 then k == Min(2 * size, |l|) else k > 2 * size
  }

  lemma CountsOn(l: seq<Ptr>, size: nat, k: nat, merges: nat)
    requires size > 0 && k < |l| && Counted(l, size, k, merges)
    ensures Counted(l, size, End(l, k, size), merges + 1) && End(l, k, size) > k
  {
  }

  /** The list that a pass starts with. */
  ghost predicate Unsorted(next: map<Ptr, Ptr>, list: Ptr, l: seq<Ptr>) {
    |l| > 0 && list == l[0] && Distinct(l) && NULL !in l && Waiting(next, l, 0, |l|, [])
  }

  lemma PassesStep(le: Le, l: seq<Ptr>, s: nat)
    requires s > 0
    ensures |Pass(le, l, s)| == |l|
    ensures Passes(le, l, s) == if |l| <= 2 * s then Pass(le, l, s) else Passes(le, Pass(le, l, s), 2 * s)
  {
    PassLength(le, l, s);
  }

  lemma StartsWaiting(next: map<Ptr, Ptr>, prev: map<Ptr, Ptr>, head: Ptr, tail: Ptr, l: seq<Ptr>)
    requires Linked(next, prev, head, tail, l)
    ensures |l| > 0 ==> Unsorted(next, head, l)
  {
    forall k | 0 <= k < |l| ensures Waits(next, l, k, []) { assert NextOk(next, l, k); }
  }

  lemma BuiltIsLinked(next: map<Ptr, Ptr>, prev: map<Ptr, Ptr>, list: Ptr, last: Ptr, l: seq<Ptr>)
    requires Built(next, prev, list, last, l) && |l| > 0
    ensures Linked(next[last := NULL], prev, list, last, l)
  {
    var next' := next[last := NULL];
    forall i | 0 <= i < |l| ensures NextOk(next', l, i) { assert i < |l| - 1 ==> NextOk(next, l, i); }
  }

  // Where the second run of the merge at k starts, where it ends, and what the merge gives.
  function Mid(l: seq<Ptr>, k: nat, size: nat): nat { if k < |l| then k + Min(size, |l| - k) else k }
  function End(l: seq<Ptr>, k: nat, size: nat): nat { Min(Mid(l, k, size) + size, |l|) }

  function Merged(le: Le, l: seq<Ptr>, k: nat, size: nat): seq<Ptr>
    requires k < |l|
  {
    Merge(le, l[k..Mid(l, k, size)], l[Mid(l, k, size)..End(l, k, size)])
  }

  lemma PassAt(le: Le, l: seq<Ptr>, k: nat, size: nat)
    requires size > 0 && k < |l|
    ensures Pass(le, l[k..], size) == Merged(le, l, k, size) + Pass(le, l[End(l, k, size)..], size)
    ensures |Merged(le, l, k, size)| == End(l, k, size) - k
  {
    var r := l[k..];
    var m, e := Min(size, |r|), Min(2 * size, |r|);
    assert Mid(l, k, size) == k + m && End(l, k, size) == k + e;
    FirstRuns(l, k, m, e);
    MergeLength(le, r[..m], r[m..e]);
    assert |r[..m]| == m && |r[m..e]| == e - m;
    PassUnfolds(le, r, size, m, e);
  }

  lemma PassUnfolds(le: Le, r: seq<Ptr>, size: nat, m: nat, e: nat)
    requires size > 0 && |r| > 0 && m == Min(size, |r|) && e == Min(2 * size, |r|)
    ensures Pass(le, r, size) == Merge(le, r[..m], r[m..e]) + Pass(le, r[e..], size)
  {
  }

  lemma FirstRuns(l: seq<Ptr>, k: nat, m: nat, e: nat)
    requires k <= |l| && m <= e <= |l| - k
    ensures l[k..][..m] == l[k..k + m] && l[k..][m..e] == l[k + m..k + e] && l[k..][e..] == l[k + e..]
  {
  }

  lemma Regroup(o: seq<Ptr>, a: seq<Ptr>, b: seq<Ptr>)
    ensures o + a + b == o + (a + b)
  {
  }

  /** What was built and what the pass still gives stays the same. */
  ghost predicate OnTheWay(le: Le, l: seq<Ptr>, k: nat, size: nat, o: seq<Ptr>)
    requires size > 0
  {
    k <= |l| && |o| == k && o + Pass(le, l[k..], size) == Pass(le, l, size)
  }

  lemma PassGrows(le: Le, l: seq<Ptr>, k: nat, size: nat, o: seq<Ptr>)
    requires size > 0 && k < |l| && OnTheWay(le, l, k, size, o)
    ensures OnTheWay(le, l, End(l, k, size), size, o + Merged(le, l, k, size))
  {
    PassAt(le, l, k, size);
    Regroup(o, Merged(le, l, k, size), Pass(le, l[End(l, k, size)..], size));
  }

  // One step of the merge: the item that the loop takes is the first of what Merge still gives.
  lemma MergeTakes(le: Le, l: seq<Ptr>, pi: nat, mid: nat, qi: nat, n: nat, fromP: bool, done: seq<Ptr>, all: seq<Ptr>)
    requires pi <= mid <= qi <= n <= |l| && (pi < mid || qi < n)
    requires fromP == !(pi == mid || (qi < n && !le(l[pi], l[qi])))
    requires done + Merge(le, l[pi..mid], l[qi..n]) == all
    ensures if fromP then pi < mid && done + [l[pi]] + Merge(le, l[pi + 1..mid], l[qi..n]) == all
            else qi < n && done + [l[qi]] + Merge(le, l[pi..mid], l[qi + 1..n]) == all
  {
    var a, b := l[pi..mid], l[qi..n];
    if fromP {
      assert a == [l[pi]] + a[1..] && a[1..] == l[pi + 1..mid];
      assert Merge(le, a, b) == [l[pi]] + Merge(le, a[1..], b);
    } else {
      assert b == [l[qi]] + b[1..] && b[1..] == l[qi + 1..n];
      assert Merge(le, a, b) == [l[qi]] + Merge(le, a, b[1..]);
    }
  }
}
