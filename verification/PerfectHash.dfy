/** inittab, perfect and the whole construction of lib/perfect/perfect.c. */
module PerfectHash {
  import opened PerfectGreedy
  import opened PerfectSearch
  import opened PerfectTable
  import Pigeonhole
  import opened Words

  // Marks are left by finished groups only.
  ghost predicate MarksOf(tb: seq<BStuff>, done: set<nat>) {
    forall b :: 0 <= b < |tb| ==> tb[b].water == 0 || tb[b].water - 1 in done
  }

  /** The starting point that inittab provides. */
  ghost predicate Fresh(s: Setup, tb: seq<BStuff>) {
    && s.Grouped(tb) && (forall b :: 0 <= b < |tb| ==> tb[b].val == 0 && tb[b].water == 0)
    && |s.scramble| > 0 && s.scramble[0] == 0
    && forall k :: s.IsKey(k) ==> s.keys[k].a < s.highhash
  }

  lemma FreshIsValid(s: Setup, tb: seq<BStuff>, th: seq<int>)
    requires Fresh(s, tb) && |th| == s.highhash && forall h :: 0 <= h < |th| ==> th[h] == NIL
    ensures s.Valid(tb, th, {})
  {
    forall k | s.IsKey(k) ensures s.Final(tb, k) < s.highhash { XorZero(s.keys[k].a); }
  }

  /** A mapping of all groups is a perfect hash, and tabh is its inverse. */
  lemma MappedAllIsPerfect(s: Setup, tb: seq<BStuff>, th: seq<int>, mapped: set<nat>)
    requires s.Valid(tb, th, mapped) && forall k :: s.IsKey(k) ==> s.keys[k].b in mapped
    ensures PerfectTab(s, Values(tb), |s.scramble|)
    ensures forall k :: s.IsKey(k) ==> th[s.Final(tb, k)] == k
    ensures forall h :: 0 <= h < |th| && th[h] != NIL ==> s.IsKey(th[h]) && s.Final(tb, th[h]) == h
  {
    forall k | s.IsKey(k)
      ensures s.Final(tb, k) < |th| && th[s.Final(tb, k)] == k
    {
      assert s.Complete(tb, th, s.keys[k].b);
    }
    forall k, l | s.IsKey(k) && s.IsKey(l) && k != l
      ensures s.Final(tb, k) != s.Final(tb, l)
    {
      assert th[s.Final(tb, k)] == k && th[s.Final(tb, l)] == l;
    }
  }

  lemma DoneStep(tb: seq<BStuff>, tb': seq<BStuff>, j: nat, i: nat, highwater: nat)
    requires ListsKept(tb', tb, highwater) && 0 < j && i < |tb|
    ensures Done(tb', j, i + 1) == if |tb[i].list| == j then Done(tb, j, i) + {i} else Done(tb, j, i)
    ensures i !in Done(tb, j, i) || |tb[i].list| > j
  {
  }

  lemma MarksStep(tb: seq<BStuff>, tb': seq<BStuff>, done: set<nat>, i: nat)
    requires MarksOf(tb, done) && i !in done
    ensures NoMarks(tb, done, i + 1)
    ensures ListsKept(tb', tb, i + 1) ==> MarksOf(tb', done + {i})
  {
  }

  ghost predicate SameGroups(tb: seq<BStuff>, tb0: seq<BStuff>) {
    |tb| == |tb0| && forall b :: 0 <= b < |tb| ==> tb[b].list == tb0[b].list && tb[b].listlen == tb0[b].listlen
  }

  method MaxKeys(tabb: array<BStuff>) returns (maxkeys: nat)
    ensures forall b :: 0 <= b < tabb.Length ==> tabb[b].listlen <= maxkeys
  {
    maxkeys := 0;
    for i := 0 to tabb.Length
      invariant forall b :: 0 <= b < i ==> tabb[b].listlen <= maxkeys
    {
      if tabb[i].listlen > maxkeys {
        maxkeys := tabb[i].listlen;
      }
    }
  }

  /** The two memset calls of perfect. */
  method ClearTables(tabh: array<int>, tabq: array<QStuff>)
    modifies tabh, tabq
    ensures forall h :: 0 <= h < tabh.Length ==> tabh[h] == NIL
  {
    forall h | 0 <= h < tabh.Length {
      tabh[h] := NIL;
    }
    forall t | 0 <= t < tabq.Length {
      tabq[t] := QStuff(NIL, 0, 0, 0);
    }
  }

  /**
    Why a search gave up: tabh holds exactly the groups before the item, with values below the limit, and no value
    fits the item at once; with transitive closure, no group that the search reached can take any value.
   */
  ghost predicate GaveUp(s: Setup, tb: seq<BStuff>, th: seq<int>, item: nat, nodes: set<nat>, trans: bool) {
    && item < |tb| && |tb[item].list| > 0 && s.Valid(tb, th, MappedBefore(tb, item))
    && NoneFits(s, th, item, |s.scramble|)
    && (trans ==> Closed(s, th, nodes, MappedBefore(tb, item), item, |s.scramble|))
  }

  /** What the loops of perfect keep about greedy tabs: without transitive closure the values are greedy. */
  ghost predicate GreedySoFar(s: Setup, tb: seq<BStuff>, groups: set<nat>, trans: bool) {
    AgreesWithAll(s, tb, groups) && (trans || GreedyUpTo(s, tb, groups))
  }

  lemma StillGreedy(s: Setup, tb0: seq<BStuff>, th: seq<int>, tb: seq<BStuff>, p: seq<Move>, item: nat, limit: nat,
                    trans: bool)
    requires item < |tb0| && |tb0[item].list| > 0 && s.Valid(tb0, th, MappedBefore(tb0, item)) && limit == |s.scramble|
    requires GreedySoFar(s, tb0, MappedBefore(tb0, item), trans) && s.Legal(tb)
    requires Took(s, th, tb0, tb, p, item, MappedBefore(tb0, item))
    requires FirstFit(s, th, p, item, limit) || (trans && NoneFits(s, th, item, limit))
    ensures GreedySoFar(s, tb, MappedBefore(tb0, item) + {item}, trans)
  {
    AgreesWithAllStep(s, tb0, th, tb, p, item, limit);
    if !trans {
      GreedyStep(s, tb0, th, tb, p, item, limit);
    }
  }

  lemma GaveUpHere(s: Setup, tb0: seq<BStuff>, tb: seq<BStuff>, th: seq<int>, item: nat, nodes: set<nat>, trans: bool,
                   highwater: nat)
    requires GaveUp(s, tb0, th, item, nodes, trans) && OnlyMarked(tb, tb0, highwater)
    requires AgreesWithAll(s, tb0, MappedBefore(tb0, item))
    ensures GaveUp(s, tb, th, item, nodes, trans)
    ensures forall tab: seq<nat> :: |tab| == |tb| ==> !Greedy(s, tab)
  {
    forall tab: seq<nat> | |tab| == |tb| ensures !Greedy(s, tab) { NoneFitsMeansNoGreedy(s, tb0, th, item, tab); }
    MarksDoNotMatter(s, tb0, tb, th, MappedBefore(tb0, item), highwater);
    assert MappedBefore(tb, item) == MappedBefore(tb0, item);
  }

  /** The loops of perfect have mapped these groups. */
  ghost predicate AtGroup(s: Setup, tb: seq<BStuff>, th: seq<int>, done: set<nat>, trans: bool) {
    s.Valid(tb, th, done) && MarksOf(tb, done) && GreedySoFar(s, tb, done, trans)
  }

  ghost predicate NoGreedy(s: Setup, blen: nat) {
    forall tab: seq<nat> :: |tab| == blen ==> !Greedy(s, tab)
  }

  lemma GroupMapped(s: Setup, tb0: seq<BStuff>, th0: seq<int>, tb: seq<BStuff>, th: seq<int>, p: seq<Move>, limit: nat,
                    trans: bool, j: nat, i: nat, next: nat)
    requires AtGroup(s, tb0, th0, Done(tb0, j, i), trans) && i < |tb0| && |tb0[i].list| == j > 0 && next == i + 1
    requires s.Valid(tb, th, Done(tb0, j, i) + {i}) && ListsKept(tb, tb0, next) && limit == |s.scramble|
    requires Took(s, th0, tb0, tb, p, i, Done(tb0, j, i))
    requires FirstFit(s, th0, p, i, limit) || (trans && NoneFits(s, th0, i, limit))
    ensures AtGroup(s, tb, th, Done(tb, j, next), trans) && SameGroups(tb, tb0)
  {
    MarksStep(tb0, tb, Done(tb0, j, i), i);
    DoneStep(tb0, tb, j, i, next);
    StillGreedy(s, tb0, th0, tb, p, i, limit, trans);
    assert Done(tb, j, next) == Done(tb0, j, i) + {i};
  }

  /** The turn of group i, which has j keys. */
  method MapGroup(s: Setup, tabb: array<BStuff>, tabh: array<int>, tabq: array<QStuff>, limit: nat, trans: bool,
                  j: nat, i: nat, ghost next: nat) returns (ok: bool, ghost nodes: set<nat>)
    requires tabh.Length == s.highhash && tabq.Length == tabb.Length + 1 && limit == |s.scramble| && j > 0
    requires i < tabb.Length && |tabb[i].list| == j && next == i + 1
    requires AtGroup(s, tabb[..], tabh[..], Done(tabb[..], j, i), trans)
    modifies tabb, tabh, tabq
    ensures SameGroups(tabb[..], old(tabb[..]))
    ensures !ok || AtGroup(s, tabb[..], tabh[..], Done(tabb[..], j, next), trans)
    ensures ok || GaveUp(s, tabb[..], tabh[..], i, nodes, trans)
    ensures ok || NoGreedy(s, tabb.Length)
  {
    ghost var tb, th, p := tabb[..], tabh[..], [];
    MarksStep(tb, tb, Done(tb, j, i), i);
    ok, p, nodes := Augment(s, tabb, tabh, tabq, i, limit, trans, i + 1, Done(tb, j, i));
    if ok {
      GroupMapped(s, tb, th, tabb[..], tabh[..], p, limit, trans, j, i, next);
    } else {
      assert GaveUp(s, tb, th, i, nodes, trans);
      GaveUpHere(s, tb, tabb[..], th, i, nodes, trans, i + 1);
    }
  }

  lemma GroupSkipped(tb: seq<BStuff>, j: nat, i: nat, next: nat)
    requires i < |tb| && |tb[i].list| != j && next == i + 1
    ensures Done(tb, j, next) == Done(tb, j, i)
  {
  }

  lemma SizeMapped(tb: seq<BStuff>, j: nat, i: nat, below: nat)
    requires i == |tb| && j == below + 1
    ensures Done(tb, j, i) == Done(tb, below, 0)
  {
  }

  /** All groups of size j, in order of b. */
  method MapGroupsOfSize(s: Setup, tabb: array<BStuff>, tabh: array<int>, tabq: array<QStuff>, limit: nat, trans: bool,
                         j: nat, ghost below: nat)
    returns (ok: bool, ghost item: nat, ghost nodes: set<nat>)
    requires tabh.Length == s.highhash && tabq.Length == tabb.Length + 1 && limit == |s.scramble| && j == below + 1
    requires AtGroup(s, tabb[..], tabh[..], Done(tabb[..], j, 0), trans)
    modifies tabb, tabh, tabq
    ensures SameGroups(tabb[..], old(tabb[..]))
    ensures !ok || AtGroup(s, tabb[..], tabh[..], Done(tabb[..], below, 0), trans)
    ensures ok || GaveUp(s, tabb[..], tabh[..], item, nodes, trans)
    ensures ok || NoGreedy(s, tabb.Length)
  {
    ghost var tb0 := tabb[..];
    item, nodes := 0, {};
    var i := 0;
    while i < tabb.Length
      invariant 0 <= i <= tabb.Length && SameGroups(tabb[..], tb0)
      invariant AtGroup(s, tabb[..], tabh[..], Done(tabb[..], j, i), trans)
    {
      assert s.GroupOk(i, tabb[i]);
      var next := i + 1;
      if tabb[i].listlen == j {
        ok, nodes := MapGroup(s, tabb, tabh, tabq, limit, trans, j, i, next);
        if !ok {
          item := i;
          return;
        }
      } else {
        GroupSkipped(tabb[..], j, i, next);
      }
      i := next;
    }
    SizeMapped(tabb[..], j, i, below);
    ok := true;
  }

  lemma NothingYet(s: Setup, tb: seq<BStuff>, trans: bool)
    requires s.Legal(tb)
    ensures GreedySoFar(s, tb, {}, trans)
  {
    ValuesAreTab(s, tb);
  }

  // When all groups are mapped, the values are greedy if they are without transitive closure, or if any tab is.
  lemma AllGreedy(s: Setup, tb: seq<BStuff>, trans: bool)
    requires s.Legal(tb) && s.Grouped(tb) && GreedySoFar(s, tb, Done(tb, 0, 0), trans)
    ensures !trans ==> Greedy(s, Values(tb))
    ensures forall tab: seq<nat> :: |tab| == |tb| && Greedy(s, tab) ==> Greedy(s, Values(tb))
  {
    ValuesAreTab(s, tb);
    forall b | 0 <= b < |tb| && KeysOf(s, b) != {} ensures b in Done(tb, 0, 0) { ListIsGroup(s, tb, b); }
    forall tab: seq<nat> | |tab| == |tb| && Greedy(s, tab) ensures Greedy(s, Values(tb)) {
      AgreementIsGreedy(s, tab, Values(tb));
    }
  }

  // Groups without keys do not matter.
  lemma AgreementIsGreedy(s: Setup, tab: seq<nat>, tab': seq<nat>)
    requires Greedy(s, tab) && IsTab(s, tab') && |tab'| == |tab|
    requires forall b :: 0 <= b < |tab| && KeysOf(s, b) != {} ==> tab[b] == tab'[b]
    ensures Greedy(s, tab')
  {
    forall b | 0 <= b < |tab'| && KeysOf(s, b) != {} ensures IsLeast(s, tab', b, tab'[b]) {
      assert IsLeast(s, tab, b, tab[b]);
      forall v | 0 <= v <= tab[b] ensures Free(s, tab', b, v) <==> Free(s, tab, b, v) {
        SameFree(s, tab, tab', b, v);
      }
    }
  }

  lemma SameFree(s: Setup, tab: seq<nat>, tab': seq<nat>, b: nat, v: nat)
    requires IsTab(s, tab) && IsTab(s, tab') && |tab'| == |tab| && v < |s.scramble|
    requires forall c :: 0 <= c < |tab| && KeysOf(s, c) != {} ==> tab[c] == tab'[c]
    ensures Free(s, tab', b, v) <==> Free(s, tab, b, v)
  {
    forall l | s.IsKey(l) ensures tab[s.keys[l].b] == tab'[s.keys[l].b] { assert l in KeysOf(s, s.keys[l].b); }
  }

  lemma GivingUpAmongSingles(s: Setup, tb: seq<BStuff>, th: seq<int>, item: nat, nodes: set<nat>)
    requires GaveUp(s, tb, th, item, nodes, true) && Singles(s)
    ensures NoTab(s, |tb|)
  {
    forall tab: seq<nat> | |tab| == |tb| ensures !PerfectTab(s, tab, |s.scramble|) {
      ClosedMeansNoTab(s, tb, th, nodes, MappedBefore(tb, item), item, |s.scramble|, tab);
    }
  }

  ghost predicate SomeGreedy(s: Setup, blen: nat) { !NoGreedy(s, blen) }

  // The loops of perfect.
  method MapAll(s: Setup, tabb: array<BStuff>, tabh: array<int>, tabq: array<QStuff>, limit: nat, trans: bool,
                maxkeys: nat)
      returns (ok: bool, ghost item: nat, ghost nodes: set<nat>)
    requires tabh.Length == s.highhash && tabq.Length == tabb.Length + 1 && limit == |s.scramble|
    requires AtGroup(s, tabb[..], tabh[..], Done(tabb[..], maxkeys, 0), trans)
    modifies tabb, tabh, tabq
    ensures SameGroups(tabb[..], old(tabb[..]))
    ensures !ok || AtGroup(s, tabb[..], tabh[..], Done(tabb[..], 0, 0), trans)
    ensures ok || GaveUp(s, tabb[..], tabh[..], item, nodes, trans)
    ensures ok || NoGreedy(s, tabb.Length)
  {
    ghost var tb0 := tabb[..];
    item, nodes := 0, {};
    var j := maxkeys;
    while j > 0
      invariant 0 <= j <= maxkeys && SameGroups(tabb[..], tb0)
      invariant AtGroup(s, tabb[..], tabh[..], Done(tabb[..], j, 0), trans)
    {
      var below := j - 1;
      ok, item, nodes := MapGroupsOfSize(s, tabb, tabh, tabq, limit, trans, j, below);
      if !ok {
        return;
      }
      j := below;
    }
    assert j == 0;
    ok := true;
  }

  /** All keys stand in tabh where they hash to, and nothing else. */
  ghost predicate IsInverse(s: Setup, tb: seq<BStuff>, th: seq<int>) {
    && s.Legal(tb)
    && (forall k :: s.IsKey(k) ==> s.Final(tb, k) < |th| && th[s.Final(tb, k)] == k)
    && forall h :: 0 <= h < |th| && th[h] != NIL ==> s.IsKey(th[h]) && s.Final(tb, th[h]) == h
  }

  lemma AllMapped(s: Setup, tb: seq<BStuff>, th: seq<int>, trans: bool)
    requires AtGroup(s, tb, th, Done(tb, 0, 0), trans)
    ensures PerfectTab(s, Values(tb), |s.scramble|) && IsInverse(s, tb, th)
    ensures !trans || SomeGreedy(s, |tb|) ==> Greedy(s, Values(tb))
  {
    MappedAllIsPerfect(s, tb, th, Done(tb, 0, 0));
    AllGreedy(s, tb, trans);
  }

  lemma NothingMapped(s: Setup, tb: seq<BStuff>, th: seq<int>, maxkeys: nat, trans: bool)
    requires Fresh(s, tb) && |th| == s.highhash && (forall h :: 0 <= h < |th| ==> th[h] == NIL)
    requires forall b :: 0 <= b < |tb| ==> tb[b].listlen <= maxkeys
    ensures AtGroup(s, tb, th, Done(tb, maxkeys, 0), trans)
  {
    FreshIsValid(s, tb, th);
    NothingYet(s, tb, trans);
    forall b | 0 <= b < |tb| ensures |tb[b].list| <= maxkeys { assert s.GroupOk(b, tb[b]); }
    assert Done(tb, maxkeys, 0) == {};
  }

  /**
    perfect: maps all groups, those with most keys first.  If it returns TRUE then a ^ scramble[tab[b]]
    is one-to-one on the keys and below highhash, and tabh is exactly its inverse.  If there is a greedy tab[] it
    returns TRUE with it, and without transitive closure only then.  If it returns FALSE it says why; for single-key
    groups and with transitive closure then there is no perfect tab[] at all.
   */
  method BuildPerfect(s: Setup, tabb: array<BStuff>, tabh: array<int>, tabq: array<QStuff>, limit: nat, trans: bool)
      returns (ok: bool, ghost item: nat, ghost nodes: set<nat>)
    requires Fresh(s, tabb[..]) && limit == |s.scramble|
    requires tabh.Length == s.highhash && tabq.Length == tabb.Length + 1
    modifies tabb, tabh, tabq
    ensures SameGroups(tabb[..], old(tabb[..]))
    ensures !ok || PerfectTab(s, Values(tabb[..]), limit)
    ensures !ok || IsInverse(s, tabb[..], tabh[..])
    ensures ok || GaveUp(s, tabb[..], tabh[..], item, nodes, trans)
    ensures SomeGreedy(s, tabb.Length) ==> ok
    ensures ok && (!trans || SomeGreedy(s, tabb.Length)) ==> Greedy(s, Values(tabb[..]))
    ensures trans && Singles(s) ==> (ok <==> !NoTab(s, tabb.Length))
  {
    ClearTables(tabh, tabq);
    var maxkeys := MaxKeys(tabb);
    NothingMapped(s, tabb[..], tabh[..], maxkeys, trans);
    ok, item, nodes := MapAll(s, tabb, tabh, tabq, limit, trans, maxkeys);
    if ok {
      AllMapped(s, tabb[..], tabh[..], trans);
    } else if trans && Singles(s) {
      GivingUpAmongSingles(s, tabb[..], tabh[..], item, nodes);
    }
  }

  // ---- inittab and the whole construction ------------------------------------------------------

  /** No two of the first n keys have the same (a,b). */
  ghost predicate DistinctPairs(keys: seq<Key>, n: nat)
    requires n <= |keys|
  {
    forall k, l :: 0 <= k < l < n ==> keys[k].a != keys[l].a || keys[k].b != keys[l].b
  }

  /** The first n keys are in the lists of their b, nothing else is, and nothing else is set. */
  ghost predicate Listed(keys: seq<Key>, tb: seq<BStuff>, n: nat)
    requires n <= |keys|
  {
    && (forall k :: 0 <= k < n ==> keys[k].b < |tb| && k in tb[keys[k].b].list)
    && (forall b :: 0 <= b < |tb| ==> ListOk(keys, b, tb[b], n))
  }

  ghost predicate ListOk(keys: seq<Key>, b: nat, g: BStuff, n: nat)
    requires n <= |keys|
  {
    && g.val == 0 && g.water == 0 && g.listlen == |g.list|
    && (forall m :: 0 <= m < |g.list| ==> g.list[m] < n && keys[g.list[m]].b == b)
    && (forall m, m' :: 0 <= m < m' < |g.list| ==> g.list[m] != g.list[m'])
  }

  lemma ListedAndDistinct(s: Setup, tb: seq<BStuff>)
    requires Listed(s.keys, tb, |s.keys|) && DistinctPairs(s.keys, |s.keys|)
    ensures s.Grouped(tb)
  {
    forall b | 0 <= b < |tb|
      ensures s.GroupOk(b, tb[b])
    {
      assert ListOk(s.keys, b, tb[b], |s.keys|);
      forall m, n | 0 <= m < n < |tb[b].list|
        ensures s.keys[tb[b].list[m]].a != s.keys[tb[b].list[n]].a
      {
        var k, l := tb[b].list[m], tb[b].list[n];
        assert k != l && (k < l || l < k);
      }
    }
  }

  // Does some key already in the list have this a?
  method FindCollision(keys: seq<Key>, g: BStuff, a: nat) returns (found: bool)
    requires forall m :: 0 <= m < |g.list| ==> g.list[m] < |keys|
    ensures found <==> exists m :: 0 <= m < |g.list| && keys[g.list[m]].a == a
  {
    found := false;
    var m := 0;
    while m < |g.list|
      invariant 0 <= m <= |g.list|
      invariant found <==> exists n :: 0 <= n < m && keys[g.list[n]].a == a
    {
      if keys[g.list[m]].a == a {
        found := true;
      }
      m := m + 1;
    }
  }

  // The list of group g with key n put in front.
  function Pushed(g: BStuff, n: nat): BStuff {
    g.(listlen := g.listlen + 1, list := [n] + g.list)
  }

  lemma PushedOk(keys: seq<Key>, b: nat, g: BStuff, n: nat)
    requires n < |keys| && keys[n].b == b && ListOk(keys, b, g, n)
    ensures ListOk(keys, b, Pushed(g, n), n + 1)
    ensures n in Pushed(g, n).list && forall k :: k in g.list ==> k in Pushed(g, n).list
  {
    var g' := Pushed(g, n);
    assert g'.list[0] == n;
    assert forall m :: 0 <= m < |g.list| ==> g'.list[m + 1] == g.list[m];
  }

  lemma ListedStep(keys: seq<Key>, tb: seq<BStuff>, n: nat)
    requires n < |keys| && keys[n].b < |tb| && Listed(keys, tb, n)
    ensures Listed(keys, tb[keys[n].b := Pushed(tb[keys[n].b], n)], n + 1)
  {
    var b := keys[n].b;
    var tb' := tb[b := Pushed(tb[b], n)];
    assert ListOk(keys, b, tb[b], n);
    PushedOk(keys, b, tb[b], n);
    forall c | 0 <= c < |tb'| ensures ListOk(keys, c, tb'[c], n + 1) { assert ListOk(keys, c, tb[c], n); }
  }

  // One key of inittab.
  method ListKey(tabb: array<BStuff>, keys: seq<Key>, n: nat) returns (found: bool)
    requires n < |keys| && keys[n].b < tabb.Length && Listed(keys, tabb[..], n)
    modifies tabb
    ensures Listed(keys, tabb[..], n + 1)
    ensures found ==> !DistinctPairs(keys, n + 1) && !DistinctPairs(keys, |keys|)
    ensures !found && DistinctPairs(keys, n) ==> DistinctPairs(keys, n + 1)
  {
    var g := tabb[keys[n].b];
    ghost var tb := tabb[..];
    assert ListOk(keys, keys[n].b, tb[keys[n].b], n);
    found := FindCollision(keys, g, keys[n].a);
    CollisionMeans(keys, tb, n, found);
    ListedStep(keys, tb, n);
    tabb[keys[n].b] := Pushed(g, n);
    assert tabb[..] == tb[keys[n].b := Pushed(g, n)];
  }

  /** inittab: lists the keys by b and reports whether the pairs (a,b) are distinct. */
  method Inittab(tabb: array<BStuff>, keys: seq<Key>, complete: bool) returns (nocollision: bool)
    requires forall k :: 0 <= k < |keys| ==> keys[k].b < tabb.Length
    modifies tabb
    ensures nocollision <==> DistinctPairs(keys, |keys|)
    ensures nocollision || complete ==> Listed(keys, tabb[..], |keys|)
  {
    forall b | 0 <= b < tabb.Length {
      tabb[b] := BStuff(0, [], 0, 0);
    }
    nocollision := true;
    var n := 0;
    while n < |keys|
      invariant 0 <= n <= |keys|
      invariant if nocollision then DistinctPairs(keys, n) else !DistinctPairs(keys, |keys|)
      invariant Listed(keys, tabb[..], n)
    {
      var found := ListKey(tabb, keys, n);
      n := n + 1;
      if found {
        nocollision := false;
        if !complete {
          return;
        }
      }
    }
  }

  lemma CollisionMeans(keys: seq<Key>, tb: seq<BStuff>, n: nat, found: bool)
    requires n < |keys| && keys[n].b < |tb| && Listed(keys, tb, n) && ListOk(keys, keys[n].b, tb[keys[n].b], n)
    requires var g := tb[keys[n].b]; found <==> exists m :: 0 <= m < |g.list| && keys[g.list[m]].a == keys[n].a
    ensures found ==> !DistinctPairs(keys, n + 1) && !DistinctPairs(keys, |keys|)
    ensures !found && DistinctPairs(keys, n) ==> DistinctPairs(keys, n + 1)
    ensures !DistinctPairs(keys, n) ==> !DistinctPairs(keys, n + 1)
  {
    var g := tb[keys[n].b];
    if found {
      var m :| 0 <= m < |g.list| && keys[g.list[m]].a == keys[n].a;
      var k := g.list[m];
      assert k < n && keys[k].a == keys[n].a && keys[k].b == keys[n].b;
    }
  }

  // USE_SCRAMBLE and UB1MAXVAL+1
  const USE_SCRAMBLE: nat := 4096
  const BYTE_VALUES: nat := 256

  /** How many values augment tries. */
  function Limit(blen: nat, smax: nat): nat {
    if blen < USE_SCRAMBLE then smax else BYTE_VALUES
  }

  /** The hash of key k by the finished table. */
  function FinalHash(keys: seq<Key>, scramble: seq<nat>, tab: seq<nat>, k: nat): nat
    requires k < |keys| && keys[k].b < |tab| && tab[keys[k].b] < |scramble|
  {
    Xor(keys[k].a, scramble[tab[keys[k].b]])
  }

  /** tab[], with values below the limit, gives every key a hash of its own below highhash. */
  ghost predicate IsPerfectHash(keys: seq<Key>, scramble: seq<nat>, tab: seq<nat>, limit: nat, highhash: nat) {
    && limit <= |scramble|
    && (forall b :: 0 <= b < |tab| ==> tab[b] < limit)
    && (forall k :: 0 <= k < |keys| ==> keys[k].b < |tab| && FinalHash(keys, scramble, tab, k) < highhash)
    && (forall k, l :: 0 <= k < l < |keys| ==> FinalHash(keys, scramble, tab, k) != FinalHash(keys, scramble, tab, l))
  }

  predicate Reached(keys: seq<Key>, scramble: seq<nat>, tab: seq<nat>, h: nat)
    requires forall k :: 0 <= k < |keys| ==> keys[k].b < |tab| && tab[keys[k].b] < |scramble|
  {
    exists k :: 0 <= k < |keys| && FinalHash(keys, scramble, tab, k) == h
  }

  ghost predicate SomePerfectHash(keys: seq<Key>, scramble: seq<nat>, blen: nat, limit: nat, highhash: nat) {
    exists tab: seq<nat> :: |tab| == blen && IsPerfectHash(keys, scramble, tab, limit, highhash)
  }

  lemma PerfectTabIsPerfectHash(keys: seq<Key>, scramble: seq<nat>, tab: seq<nat>, limit: nat, highhash: nat)
    requires limit <= |scramble|
    ensures PerfectTab(Setup(keys, scramble[..limit], highhash), tab, limit) <==>
            IsPerfectHash(keys, scramble, tab, limit, highhash)
  {
    var s := Setup(keys, scramble[..limit], highhash);
    if (forall b :: 0 <= b < |tab| ==> tab[b] < limit) && (forall k :: 0 <= k < |keys| ==> keys[k].b < |tab|) {
      assert forall k :: s.IsKey(k) ==> s.Hash(k, tab[keys[k].b]) == FinalHash(keys, scramble, tab, k);
    }
  }

  /** One-to-one into 0..nkeys-1 is onto: the hash is minimal. */
  lemma MinimalReachesAll(keys: seq<Key>, scramble: seq<nat>, tab: seq<nat>, limit: nat, h: nat)
    requires IsPerfectHash(keys, scramble, tab, limit, |keys|) && h < |keys|
    ensures Reached(keys, scramble, tab, h)
  {
    var hashes := seq(|keys|, k requires 0 <= k < |keys| => FinalHash(keys, scramble, tab, k));
    Pigeonhole.Onto(hashes, h);
    var k :| 0 <= k < |hashes| && hashes[k] == h;
    assert FinalHash(keys, scramble, tab, k) == h;
  }

  predicate DistinctB(keys: seq<Key>) {
    forall k, l :: 0 <= k < l < |keys| ==> keys[k].b != keys[l].b
  }

  function HighHash(nkeys: nat, smax: nat, minimal: bool): nat {
    if minimal then nkeys else smax
  }

  /** What perfect works on: scramble counts up to the limit only. */
  function SetupOf(keys: seq<Key>, scramble: seq<nat>, blen: nat, smax: nat, minimal: bool): Setup
    requires Limit(blen, smax) <= |scramble|
  {
    Setup(keys, scramble[..Limit(blen, smax)], HighHash(|keys|, smax, minimal))
  }

  ghost predicate SearchFailed(s: Setup, blen: nat, trans: bool) {
    exists tb, th, item, nodes :: |tb| == blen && GaveUp(s, tb, th, item, nodes, trans)
  }

  predicate DistinctA(keys: seq<Key>) {
    forall k, l :: 0 <= k < l < |keys| ==> keys[k].a != keys[l].a
  }

  /**
    One attempt of findhash: inittab, then perfect.  A TRUE result is a perfect hash of keys with
    pairwise distinct (a,b) into 0..highhash-1.  A FALSE result is due to two equal (a,b), or the search got stuck: see
    GaveUp.  If there is a greedy tab[] it is the result, and in fast mode exactly then the attempt succeeds; so it does
    in every mode if all a are different.  When every key has its own b, it succeeds with transitive closure exactly if
    there is a perfect hash.
   */
  method TryHash(keys: seq<Key>, scramble: seq<nat>, blen: nat, smax: nat, minimal: bool, slow: bool)
      returns (ok: bool, tab: seq<nat>)
    requires 0 < Limit(blen, smax) <= |scramble| && scramble[0] == 0
    requires forall k :: 0 <= k < |keys| ==> keys[k].b < blen && keys[k].a < HighHash(|keys|, smax, minimal)
    ensures ok ==> DistinctPairs(keys, |keys|) && |tab| == blen
    ensures ok ==> IsPerfectHash(keys, scramble, tab, Limit(blen, smax), HighHash(|keys|, smax, minimal))
    ensures ok && minimal ==> forall h :: 0 <= h < |keys| ==> Reached(keys, scramble, tab, h)
    ensures ok || !DistinctPairs(keys, |keys|)
            || SearchFailed(SetupOf(keys, scramble, blen, smax, minimal), blen, slow || minimal)
    ensures DistinctPairs(keys, |keys|) && SomeGreedy(SetupOf(keys, scramble, blen, smax, minimal), blen) ==>
      ok && Greedy(SetupOf(keys, scramble, blen, smax, minimal), tab)
    ensures ok && !slow && !minimal ==> Greedy(SetupOf(keys, scramble, blen, smax, minimal), tab)
    ensures DistinctA(keys) ==> ok
    ensures (slow || minimal) && DistinctB(keys) ==>
      (ok <==> SomePerfectHash(keys, scramble, blen, Limit(blen, smax), HighHash(|keys|, smax, minimal)))
  {
    tab := [];
    var s := SetupOf(keys, scramble, blen, smax, minimal);
    var tabb := new BStuff[blen](_ => BStuff(0, [], 0, 0));
    var distinct := Inittab(tabb, keys, false);
    if !distinct {
      return false, tab;
    }
    if DistinctA(keys) {
      ZeroIsGreedy(s, blen);
    }
    ok, tab := FillTab(s, tabb, keys, scramble, Limit(blen, smax), slow || minimal);
    if ok && minimal {
      forall h | 0 <= h < |keys| ensures Reached(keys, scramble, tab, h) {
        MinimalReachesAll(keys, scramble, tab, Limit(blen, smax), h);
      }
    }
  }

  lemma ListedIsFresh(s: Setup, tb: seq<BStuff>)
    requires Listed(s.keys, tb, |s.keys|) && DistinctPairs(s.keys, |s.keys|)
    requires |s.scramble| > 0 && s.scramble[0] == 0 && forall k :: s.IsKey(k) ==> s.keys[k].a < s.highhash
    ensures Fresh(s, tb)
  {
    ListedAndDistinct(s, tb);
    forall b | 0 <= b < |tb| ensures tb[b].val == 0 && tb[b].water == 0 { assert ListOk(s.keys, b, tb[b], |s.keys|); }
  }

  method FillTab(s: Setup, tabb: array<BStuff>, keys: seq<Key>, scramble: seq<nat>, limit: nat, trans: bool)
      returns (ok: bool, tab: seq<nat>)
    requires 0 < limit <= |scramble| && scramble[0] == 0 && s == Setup(keys, scramble[..limit], s.highhash)
    requires Listed(keys, tabb[..], |keys|) && DistinctPairs(keys, |keys|)
    requires forall k :: 0 <= k < |keys| ==> keys[k].a < s.highhash
    modifies tabb
    ensures ok ==> |tab| == tabb.Length
    ensures !ok || IsPerfectHash(keys, scramble, tab, limit, s.highhash)
    ensures ok || SearchFailed(s, tabb.Length, trans)
    ensures SomeGreedy(s, tabb.Length) ==> ok
    ensures ok && (!trans || SomeGreedy(s, tabb.Length)) ==> Greedy(s, tab)
    ensures trans && DistinctB(keys) ==> (ok <==> SomePerfectHash(keys, scramble, tabb.Length, limit, s.highhash))
  {
    var tabh := new int[s.highhash](_ => NIL);
    var tabq := new QStuff[tabb.Length + 1](_ => QStuff(NIL, 0, 0, 0));
    ListedIsFresh(s, tabb[..]);
    ghost var item, nodes;
    ok, item, nodes := BuildPerfect(s, tabb, tabh, tabq, limit, trans);
    tab := seq(tabb.Length, b requires 0 <= b < tabb.Length reads tabb => tabb[b].val);
    assert tab == Values(tabb[..]);
    assert ok || SearchFailed(s, tabb.Length, trans);
    Filled(s, keys, scramble, limit, tab, trans, ok);
  }

  // What BuildPerfect says about its setup, said about the keys.
  lemma Filled(s: Setup, keys: seq<Key>, scramble: seq<nat>, limit: nat, tab: seq<nat>, trans: bool, ok: bool)
    requires limit <= |scramble| && s == Setup(keys, scramble[..limit], s.highhash)
    requires !ok || PerfectTab(s, tab, limit)
    requires trans && Singles(s) ==> (ok <==> !NoTab(s, |tab|))
    ensures !ok || IsPerfectHash(keys, scramble, tab, limit, s.highhash)
    ensures trans && DistinctB(keys) ==> (ok <==> SomePerfectHash(keys, scramble, |tab|, limit, s.highhash))
  {
    PerfectTabIsPerfectHash(keys, scramble, tab, limit, s.highhash);
    SomePerfectHashMeans(s, keys, scramble, |tab|, limit);
    DistinctBIsSingles(s);
  }

  lemma DistinctBIsSingles(s: Setup)
    ensures DistinctB(s.keys) ==> Singles(s)
  {
  }

  lemma SomePerfectHashMeans(s: Setup, keys: seq<Key>, scramble: seq<nat>, blen: nat, limit: nat)
    requires limit <= |scramble| && s == Setup(keys, scramble[..limit], s.highhash)
    ensures SomePerfectHash(keys, scramble, blen, limit, s.highhash) <==> !NoTab(s, blen)
  {
    forall tab: seq<nat> | |tab| == blen
      ensures PerfectTab(s, tab, limit) <==> IsPerfectHash(keys, scramble, tab, limit, s.highhash)
    {
      PerfectTabIsPerfectHash(keys, scramble, tab, limit, s.highhash);
    }
  }

  // ---- where the search misses a hash --------------------------------------------------------------

  /** The end of an augmenting path has a value that is not blocked. */
  lemma PathEndsUnblocked(s: Setup, th: seq<int>, p: seq<Move>, item: nat, nodes: set<nat>)
    requires |th| == s.highhash && Augmenting(s, th, p, item, nodes)
    ensures var m := p[|p| - 1]; m.b in nodes && m.v < |s.scramble| && !Blocked(s, th, m.b, m.v, nodes)
  {
    assert LinkAt(s, th, p, |p| - 1, NIL);
  }

  /** Three keys of group 0 and two of group 1, to be hashed to 0..4. */
  function FiveKeys(): Setup {
    Setup([Key(0, 0), Key(1, 0), Key(2, 0), Key(0, 1), Key(4, 1)], [0, 1, 2, 3, 4, 5, 6, 7], 5)
  }

  /** What inittab lists for them. */
  function FiveListed(): seq<BStuff> { [BStuff(0, [2, 1, 0], 3, 0), BStuff(0, [4, 3], 2, 0)] }

  /** The hash table when group 0 has its first value. */
  function ThreePlaced(): seq<int> { [0, 1, 2, NIL, NIL] }

  lemma SmallXors()
    ensures Xor(0, 1) == 1 && Xor(0, 2) == 2 && Xor(0, 3) == 3 && Xor(0, 4) == 4 && Xor(0, 5) == 5 && Xor(0, 6) == 6
    ensures Xor(0, 7) == 7 && Xor(0, 0) == 0 && Xor(1, 0) == 1 && Xor(2, 0) == 2 && Xor(4, 0) == 4 && Xor(4, 4) == 0
    ensures Xor(1, 4) == 5 && Xor(1, 3) == 2 && Xor(2, 3) == 1 && Xor(4, 1) == 5 && Xor(4, 2) == 6 && Xor(4, 3) == 7
  {
  }

  lemma FiveAreBlocked(b: nat, v: nat)
    requires b < 2 && v < 8
    ensures Blocked(FiveKeys(), ThreePlaced(), b, v, {0, 1})
  {
    var s, th := FiveKeys(), ThreePlaced();
    SmallXors();
    if b == 0 {
      var k := if v == 3 || v == 4 then 1 else 0;
      assert InGroup(s, k, 0);
      assert s.Hash(k, v) >= 5 || Hit(s, th, k, v) == 0;
    } else {
      var k := if v == 0 || v >= 5 then 3 else 4;
      assert InGroup(s, k, 1);
      assert s.Hash(k, v) >= 5 || Hit(s, th, k, v) == 0;
    }
  }

  lemma FiveAreListed()
    ensures FiveKeys().Grouped(FiveListed())
  {
    var s, tb := FiveKeys(), FiveListed();
    assert s.GroupOk(0, tb[0]) && s.GroupOk(1, tb[1]);
  }

  lemma FiveAreValid(s: Setup, tb: seq<BStuff>, th: seq<int>)
    requires s.Grouped(tb) && |s.keys| == 5 && |tb| == 2 && |th| == s.highhash == 5
    requires s.keys[0] == Key(0, 0) && s.keys[1] == Key(1, 0) && s.keys[2] == Key(2, 0)
    requires s.keys[3].a < 5 && s.keys[3].b == 1 && s.keys[4].a < 5 && s.keys[4].b == 1
    requires |s.scramble| > 0 && s.scramble[0] == 0 && tb[0].val == 0 && tb[1].val == 0
    requires th[0] == 0 && th[1] == 1 && th[2] == 2 && th[3] == NIL && th[4] == NIL
    ensures s.Valid(tb, th, {0})
  {
    forall k | s.IsKey(k) ensures s.Final(tb, k) == s.keys[k].a { XorZero(s.keys[k].a); }
  }

  lemma BlockedDoesNotFit(s: Setup, th: seq<int>, b: nat, v: nat, nodes: set<nat>)
    requires |th| == s.highhash && v < |s.scramble| && Blocked(s, th, b, v, nodes)
    ensures !Fits(s, th, b, v)
  {
  }

  lemma FiveAreFresh()
    ensures Fresh(FiveKeys(), FiveListed()) && FiveKeys().Valid(FiveListed(), ThreePlaced(), {0})
  {
    FiveAreListed();
    FiveAreValid(FiveKeys(), FiveListed(), ThreePlaced());
  }

  lemma FiveHashes(s: Setup, tab: seq<nat>, k: nat)
    requires s == FiveKeys() && k < 5 && |tab| == 2 && tab[0] == 3 && tab[1] == 0
    ensures s.Hash(k, tab[s.keys[k].b]) == if k < 3 then 3 - k else if k == 3 then 0 else 4
  {
    SmallXors();
  }

  lemma FiveHavePerfectTab()
    ensures PerfectTab(FiveKeys(), [3, 0], 8)
  {
    var s, tab := FiveKeys(), [3, 0];
    forall k | s.IsKey(k)
      ensures s.Hash(k, tab[s.keys[k].b]) == if k < 3 then 3 - k else if k == 3 then 0 else 4
    {
      FiveHashes(s, tab, k);
    }
  }

  lemma FirstFits(s: Setup, th: seq<int>)
    requires s == FiveKeys() && |th| == 5 && forall h :: 0 <= h < 5 ==> th[h] == NIL
    ensures Fits(s, th, 0, 0)
  {
    SmallXors();
  }

  /**
    For groups of several keys a failure does not mean that there is no perfect hash. Here group 0 gets its first
    value; then no augmenting path takes group 1 in, as each other value of group 0 sends a key to a cell that the group
    itself holds, or out of range. There is a perfect hash nevertheless.
   */
  lemma GroupsMayBeMissed()
    ensures var s, tb, th := FiveKeys(), FiveListed(), ThreePlaced();
      && Fresh(s, tb) && Fits(s, [NIL, NIL, NIL, NIL, NIL], 0, 0)
      && GaveUp(s, tb, th, 1, {0, 1}, true) && (forall p :: !Augmenting(s, th, p, 1, {0, 1}))
      && PerfectTab(s, [3, 0], 8)
  {
    var s, tb, th := FiveKeys(), FiveListed(), ThreePlaced();
    FiveAreFresh();
    FiveHavePerfectTab();
    FirstFits(s, [NIL, NIL, NIL, NIL, NIL]);
    assert MappedBefore(tb, 1) == {0};
    forall b, v | b in {0, 1} && 0 <= v < 8 ensures Blocked(s, th, b, v, {0, 1}) { FiveAreBlocked(b, v); }
    forall p ensures !Augmenting(s, th, p, 1, {0, 1}) {
      if Augmenting(s, th, p, 1, {0, 1}) {
        PathEndsUnblocked(s, th, p, 1, {0, 1});
        assert false;
      }
    }
    forall v | 0 <= v < 8 ensures !Fits(s, th, 1, v) {
      BlockedDoesNotFit(s, th, 1, v, {0, 1});
    }
  }
}
