/** The search for augmenting paths: augment of lib/perfect/perfect.c. */
module PerfectSearch {
  import opened PerfectTable
  import Pigeonhole
  import opened Words

  // ---- growing the spanning tree ---------------------------------------------------------------

  /** tb and tb0 differ in water marks only, and every changed mark is the given one. */
  ghost predicate OnlyMarked(tb: seq<BStuff>, tb0: seq<BStuff>, highwater: nat) {
    |tb| == |tb0| && forall b :: 0 <= b < |tb| ==> tb[b] == tb0[b] || tb[b] == tb0[b].(water := highwater)
  }

  lemma MarksDoNotMatter(s: Setup, tb0: seq<BStuff>, tb: seq<BStuff>, th: seq<int>, mapped: set<nat>, highwater: nat)
    requires s.Valid(tb0, th, mapped) && OnlyMarked(tb, tb0, highwater)
    ensures s.Valid(tb, th, mapped)
    ensures forall k :: s.IsKey(k) ==> s.Final(tb, k) == s.Final(tb0, k)
  {
    forall b | 0 <= b < |tb| ensures s.GroupOk(b, tb[b]) { assert s.GroupOk(b, tb0[b]); }
    assert forall k :: s.IsKey(k) ==> s.Final(tb, k) == s.Final(tb0, k);
    forall b | b in mapped ensures s.Complete(tb, th, b) { assert s.Complete(tb0, th, b); }
  }

  /** A complete tree: every entry but the root is a mapped group, and no group occurs twice. */
  ghost predicate Grown(s: Setup, tb: seq<BStuff>, th: seq<int>, q: seq<QStuff>, tail: nat, mapped: set<nat>, item: nat)
    requires s.Legal(tb) && |th| == s.highhash
  {
    && 1 <= tail <= |q| && q[0].b == item < |tb| && item !in mapped
    && (forall b :: b in mapped ==> b < |tb|)
    && (forall t :: 0 < t < tail ==> q[t].b >= 0 && q[t].b in mapped)
    && DistinctNodes(q, tail)
    && HitsKnown(s, tb, th, q, tail)
  }

  // The groups in the tree carry the current mark, the other mapped ones need not.
  ghost predicate Marked(tb: seq<BStuff>, q: seq<QStuff>, tail: nat, highwater: nat) {
    tail <= |q| && forall t :: 0 < t < tail ==> 0 <= q[t].b < |tb| && tb[q[t].b].water == highwater
  }

  lemma TreeIsSmall(q: seq<QStuff>, tail: nat, mapped: set<nat>, item: nat, blen: nat)
    requires 1 <= tail <= |q| && q[0].b == item < blen && item !in mapped
    requires forall b :: b in mapped ==> b < blen
    requires forall t :: 0 < t < tail ==> q[t].b >= 0 && q[t].b in mapped
    requires DistinctNodes(q, tail)
    ensures tail <= blen
  {
    var nodes: seq<nat> := seq(tail, t requires 0 <= t < tail => if t == 0 then item else q[t].b);
    Pigeonhole.DistinctElements(nodes);
    Pigeonhole.SizeOfSubset(Pigeonhole.Elements(nodes), Pigeonhole.Below(blen));
  }

  /** Could group b take value i right now, without any collision? */
  ghost predicate Fits(s: Setup, th: seq<int>, b: nat, i: nat)
    requires i < |s.scramble| && |th| == s.highhash
  {
    forall k :: InGroup(s, k, b) ==> s.Hash(k, i) < s.highhash && th[s.Hash(k, i)] == NIL
  }

  /** The group of the key that stands where key k would go with value i. */
  ghost function Hit(s: Setup, th: seq<int>, k: int, i: nat): int {
    if s.IsKey(k) && i < |s.scramble| && s.Hash(k, i) < |th| && s.IsKey(th[s.Hash(k, i)])
    then s.keys[th[s.Hash(k, i)]].b
    else NIL
  }

  /** With value i some key of group b leaves the range or meets a group in nodes, or two keys meet two groups. */
  ghost predicate Blocked(s: Setup, th: seq<int>, b: int, i: nat, nodes: set<nat>)
    requires i < |s.scramble| && |th| == s.highhash
  {
    || (exists k :: InGroup(s, k, b) && s.Hash(k, i) >= s.highhash)
    || (exists k :: InGroup(s, k, b) && Hit(s, th, k, i) in nodes)
    || exists k, l :: InGroup(s, k, b) && InGroup(s, l, b)
                      && Hit(s, th, k, i) != NIL && Hit(s, th, l, i) != NIL && Hit(s, th, k, i) != Hit(s, th, l, i)
  }

  /** With value i all keys of group b are in range and meet only free cells and keys of group c. */
  ghost predicate MeetsOnly(s: Setup, th: seq<int>, b: int, i: nat, c: int)
    requires i < |s.scramble| && |th| == s.highhash
  {
    forall k :: InGroup(s, k, b) ==>
        s.Hash(k, i) < s.highhash && (th[s.Hash(k, i)] == NIL || InGroup(s, th[s.Hash(k, i)], c))
  }

  ghost predicate Meets(s: Setup, th: seq<int>, b: int, i: nat, c: int)
    requires i < |s.scramble| && |th| == s.highhash
  {
    exists k :: InGroup(s, k, b) && s.Hash(k, i) < s.highhash && InGroup(s, th[s.Hash(k, i)], c)
  }

  ghost function MarkedGroups(tb: seq<BStuff>, highwater: nat): set<nat> {
    set c | 0 <= c < |tb| && tb[c].water == highwater
  }

  /** The group after position j of p, or c behind its end. */
  function Next(p: seq<Move>, j: nat, c: int): int {
    if j + 1 < |p| then p[j + 1].b else c
  }

  ghost predicate LinkAt(s: Setup, th: seq<int>, p: seq<Move>, j: nat, c: int)
    requires |th| == s.highhash && j < |p|
  {
    && p[j].v < |s.scramble| && MeetsOnly(s, th, p[j].b, p[j].v, Next(p, j, c))
    && (Next(p, j, c) != NIL ==> Meets(s, th, p[j].b, p[j].v, Next(p, j, c)))
  }

  /** Every group of p meets the next one only, and the last one meets group c only, or none if c is NIL. */
  ghost predicate Links(s: Setup, th: seq<int>, p: seq<Move>, c: int)
    requires |th| == s.highhash
  {
    forall j {:trigger LinkAt(s, th, p, j, c)} :: 0 <= j < |p| ==> LinkAt(s, th, p, j, c)
  }

  /** An augmenting path from the item over groups in nodes: each can move to where the next one makes room. */
  ghost predicate Augmenting(s: Setup, th: seq<int>, p: seq<Move>, item: nat, nodes: set<nat>)
    requires |th| == s.highhash
  {
    && |p| > 0 && p[0].b == item && Links(s, th, p, NIL)
    && (forall j :: 0 <= j < |p| ==> p[j].b in nodes)
    && forall i, j :: 0 <= i < j < |p| ==> p[i].b != p[j].b
  }

  /** Group b cannot take value i: blocked by the set, or at the end of a path that gets in its own way. */
  ghost predicate Barred(s: Setup, th: seq<int>, item: nat, b: int, i: nat, nodes: set<nat>)
    requires i < |s.scramble| && |th| == s.highhash
  {
    || Blocked(s, th, b, i, nodes)
    || exists p :: Augmenting(s, th, p, item, nodes) && p[|p| - 1] == Move(b, i) && Clashes(s, p)
  }

  /** The moves of an augmenting path over mapped groups have been made, and no other. */
  ghost predicate Took(s: Setup, th0: seq<int>, tb0: seq<BStuff>, tb: seq<BStuff>, p: seq<Move>, item: nat,
                       mapped: set<nat>)
    requires |th0| == s.highhash
  {
    Augmenting(s, th0, p, item, mapped + {item}) && Shifted(tb0, tb, p, 0)
  }

  lemma {:induction false} PathLinks(s: Setup, tb: seq<BStuff>, th: seq<int>, q: seq<QStuff>, t: nat)
    requires s.Legal(tb) && |th| == s.highhash && t < |q| && Rooted(q, t + 1) && HitsKnown(s, tb, th, q, t + 1)
    ensures Links(s, th, PathOf(q, t), q[t].b)
    ensures t > 0 ==> |PathOf(q, t)| > 0 && PathOf(q, t)[0].b == q[0].b
  {
    if t > 0 {
      var parent := q[t].parent;
      PathLinks(s, tb, th, q, parent);
      var p, p' := PathOf(q, t), PathOf(q, parent);
      forall j | 0 <= j < |p| ensures LinkAt(s, th, p, j, q[t].b) {
        if j < |p'| {
          assert LinkAt(s, th, p', j, q[parent].b);
          assert p[j] == p'[j] && Next(p, j, q[t].b) == Next(p', j, q[parent].b);
        } else {
          EntryLinks(s, tb, th, q, t);
        }
      }
    }
  }

  lemma EntryLinks(s: Setup, tb: seq<BStuff>, th: seq<int>, q: seq<QStuff>, t: nat)
    requires s.Legal(tb) && |th| == s.highhash && 0 < t < |q| && HitsKnown(s, tb, th, q, t + 1)
    ensures q[t].parent < t && 0 <= q[q[t].parent].b && q[t].newval < |s.scramble|
    ensures var b := q[q[t].parent].b;
      MeetsOnly(s, th, b, q[t].newval, q[t].b) && (q[t].b != NIL ==> Meets(s, th, b, q[t].newval, q[t].b))
  {
    assert Edge(s, tb, q, t) && FreeOrChild(s, tb, th, q, t) && ChildIsHit(s, tb, th, q, t);
    if q[t].b != NIL {
      var k :| s.IsKey(k) && s.keys[k].b == q[q[t].parent].b && InGroup(s, th[s.Hash(k, q[t].newval)], q[t].b);
      assert InGroup(s, k, q[q[t].parent].b);
    }
  }

  lemma PathIsAugmenting(s: Setup, tb: seq<BStuff>, th: seq<int>, q: seq<QStuff>, tail: nat)
    requires s.Legal(tb) && 0 < tail < |q| && Rooted(q, tail + 1) && |th| == s.highhash
    requires Finished(s, tb, th, q, tail + 1) && forall t :: 0 <= t < tail ==> q[t].b >= 0
    ensures Augmenting(s, th, PathOf(q, tail), q[0].b, Nodes(q, tail))
  {
    PathLinks(s, tb, th, q, tail);
    PathIsDistinct(q, tail);
    forall j | 0 <= j < |PathOf(q, tail)| ensures PathOf(q, tail)[j].b in Nodes(q, tail) {
      assert IsAbove(q, tail, PathOf(q, tail)[j].b);
      var u :| 0 <= u < tail && q[u].b == PathOf(q, tail)[j].b;
    }
  }

  lemma OneMoveDoesNotClash(s: Setup, p: seq<Move>)
    requires |p| <= 1
    ensures !Clashes(s, p)
  {
  }

  /**
    The scan of one group under one value: do its keys hit at most one other group, not explored yet?
   */
  method Scan(s: Setup, tabb: array<BStuff>, tabh: array<int>, b: nat, i: nat, highwater: nat, ghost mapped: set<nat>)
    returns (usable: bool, childb: int)
    requires b < tabb.Length && tabh.Length == s.highhash && i < |s.scramble|
    requires s.Valid(tabb[..], tabh[..], mapped)
    ensures usable ==> MeetsOnly(s, tabh[..], b, i, childb)
    ensures usable && childb == NIL ==> Fits(s, tabh[..], b, i)
    ensures usable && childb != NIL ==> Meets(s, tabh[..], b, i, childb)
    ensures usable && childb != NIL ==>
            childb >= 0 && childb in mapped && childb < tabb.Length && tabb[childb].water != highwater
    ensures !usable ==> !Fits(s, tabh[..], b, i)
    ensures !usable ==> Blocked(s, tabh[..], b, i, MarkedGroups(tabb[..], highwater))
  {
    var list := tabb[b].list;
    assert s.GroupOk(b, tabb[b]);
    childb := NIL;
    var n := 0;
    while n < |list|
      invariant 0 <= n <= |list|
      invariant forall m :: 0 <= m < n ==>
        var h := s.Hash(list[m], i); h < s.highhash && (tabh[h] == NIL || InGroup(s, tabh[h], childb))
      invariant childb != NIL ==> Meets(s, tabh[..], b, i, childb)
      invariant childb != NIL ==>
                childb >= 0 && childb in mapped && childb < tabb.Length && tabb[childb].water != highwater
    {
      var hash := Xor(s.keys[list[n]].a, s.scramble[i]);
      assert InGroup(s, list[n], b) && hash == s.Hash(list[n], i);
      if hash >= s.highhash {
        return false, NIL;
      }
      var childkey := tabh[hash];
      if childkey != NIL {
        var hitb := s.keys[childkey].b;
        assert hitb in mapped && hitb == Hit(s, tabh[..], list[n], i);
        if childb != NIL {
          if childb != hitb {
            ghost var k :| InGroup(s, k, b) && s.Hash(k, i) < s.highhash && InGroup(s, tabh[s.Hash(k, i)], childb);
            assert Hit(s, tabh[..], k, i) == childb;
            return false, NIL;
          }
        } else {
          if tabb[hitb].water == highwater {
            return false, NIL;
          }
          childb := hitb;
        }
      }
      n := n + 1;
    }
    forall k | InGroup(s, k, b)
      ensures s.Hash(k, i) < s.highhash && (tabh[s.Hash(k, i)] == NIL || InGroup(s, tabh[s.Hash(k, i)], childb))
    {
      assert k in list;
    }
    return true, childb;
  }

  /** Lists never change while tab[] is filled in; a mark changes only to the current one. */
  ghost predicate ListsKept(tb: seq<BStuff>, tb0: seq<BStuff>, highwater: nat) {
    |tb| == |tb0| && forall b :: 0 <= b < |tb| ==>
      tb[b].list == tb0[b].list && tb[b].listlen == tb0[b].listlen
          && (tb[b].water == tb0[b].water || tb[b].water == highwater)
  }

  ghost function Nodes(q: seq<QStuff>, tail: nat): set<nat>
    requires tail <= |q|
  {
    set t | 0 <= t < tail && q[t].b >= 0 :: q[t].b
  }

  /** Every mapped group with the current mark is in the tree: no mark is left over from before. */
  ghost predicate Clean(tb: seq<BStuff>, q: seq<QStuff>, tail: nat, mapped: set<nat>, highwater: nat) {
    tail <= |q| && forall c :: c in mapped && c < |tb| && tb[c].water == highwater ==> c in Nodes(q, tail)
  }

  // Everything augment knows between two values.
  ghost predicate Exploring(s: Setup, tb: seq<BStuff>, th: seq<int>, q: seq<QStuff>, tail: nat, highwater: nat,
                            mapped: set<nat>, item: nat)
  {
    && s.Valid(tb, th, mapped) && Grown(s, tb, th, q, tail, mapped, item)
    && Rooted(q, tail) && Marked(tb, q, tail, highwater) && |q| == |tb| + 1
  }

  // A new entry at the end of the tree.
  lemma EntryAdded(s: Setup, tb: seq<BStuff>, th: seq<int>, q: seq<QStuff>, q1: seq<QStuff>, tail: nat, at: nat,
                   i: nat, childb: int, highwater: nat, mapped: set<nat>, item: nat)
    requires Exploring(s, tb, th, q, tail, highwater, mapped, item) && at < tail < |q| && i < |s.scramble|
    requires q1 == q[tail := QStuff(childb, at, i, tb[q[at].b].val)]
    requires MeetsOnly(s, th, q[at].b, i, childb)
    requires childb != NIL ==> Meets(s, th, q[at].b, i, childb)
    ensures Rooted(q1, tail + 1) && HitsKnown(s, tb, th, q1, tail + 1)
    ensures Tree(s, tb, q1, tail + 1, mapped, item)
    ensures DistinctNodes(q1, tail)
  {
    forall t | 0 < t < tail + 1
      ensures Edge(s, tb, q1, t) && FreeOrChild(s, tb, th, q1, t) && ChildIsHit(s, tb, th, q1, t)
    {
      if t < tail {
        assert Edge(s, tb, q, t) && FreeOrChild(s, tb, th, q, t) && ChildIsHit(s, tb, th, q, t);
        assert q1[t] == q[t] && q1[q[t].parent] == q[q[t].parent];
      } else {
        assert q1[at] == q[at];
      }
    }
  }

  lemma HitsKnownMarked(s: Setup, tb0: seq<BStuff>, tb: seq<BStuff>, th: seq<int>, q: seq<QStuff>, tail: nat,
                        mapped: set<nat>, highwater: nat)
    requires s.Valid(tb0, th, mapped) && OnlyMarked(tb, tb0, highwater) && s.Legal(tb)
    requires tail <= |q| && HitsKnown(s, tb0, th, q, tail)
    ensures HitsKnown(s, tb, th, q, tail)
  {
    forall t | 0 < t < tail
      ensures Edge(s, tb, q, t) && FreeOrChild(s, tb, th, q, t) && ChildIsHit(s, tb, th, q, t)
    {
      assert Edge(s, tb0, q, t) && FreeOrChild(s, tb0, th, q, t) && ChildIsHit(s, tb0, th, q, t);
    }
  }

  // The tree has grown by the marked group childb.
  lemma TreeGrown(s: Setup, tb: seq<BStuff>, tb1: seq<BStuff>, th: seq<int>, q: seq<QStuff>, q1: seq<QStuff>,
                  tail: nat, newtail: nat, at: nat, i: nat, childb: nat, highwater: nat, mapped: set<nat>, item: nat)
    requires Exploring(s, tb, th, q, tail, highwater, mapped, item) && at < tail < |q| && i < |s.scramble|
    requires newtail == tail + 1
    requires childb in mapped && childb < |tb| && tb[childb].water != highwater
    requires tb1 == tb[childb := tb[childb].(water := highwater)]
    requires q1 == q[tail := QStuff(childb, at, i, tb[q[at].b].val)]
    requires s.Legal(tb) && HitsKnown(s, tb, th, q1, newtail) && Rooted(q1, newtail)
    ensures Exploring(s, tb1, th, q1, newtail, highwater, mapped, item)
    ensures Clean(tb, q, tail, mapped, highwater) ==> Clean(tb1, q1, newtail, mapped, highwater)
  {
    MarksDoNotMatter(s, tb, tb1, th, mapped, highwater);
    HitsKnownMarked(s, tb, tb1, th, q1, newtail, mapped, highwater);
    assert forall t :: 0 <= t < tail ==> q1[t] == q[t];
    assert forall t :: 0 <= t < tail ==> q[t].b != childb;
    if Clean(tb, q, tail, mapped, highwater) {
      forall c | c in mapped && c < |tb1| && tb1[c].water == highwater
        ensures c in Nodes(q1, newtail)
      {
        if c == childb {
          assert q1[tail].b == c;
        } else {
          assert c in Nodes(q, tail);
          var t :| 0 <= t < tail && q[t].b >= 0 && q[t].b == c;
          assert q1[t].b == c;
        }
      }
    }
  }

  // Overwriting the entry past the end changes nothing.
  lemma LastEntryIgnored(s: Setup, tb: seq<BStuff>, th: seq<int>, q: seq<QStuff>, q1: seq<QStuff>, tail: nat,
                         highwater: nat, mapped: set<nat>, item: nat)
    requires Exploring(s, tb, th, q, tail, highwater, mapped, item) && |q1| == |q| && q1[..tail] == q[..tail]
    ensures Exploring(s, tb, th, q1, tail, highwater, mapped, item)
    ensures Clean(tb, q, tail, mapped, highwater) ==> Clean(tb, q1, tail, mapped, highwater)
  {
    assert forall t :: 0 <= t < tail ==> q1[t] == q[t] by {
      assert forall t :: 0 <= t < tail ==> q1[..tail][t] == q[..tail][t];
    }
    forall t | 0 < t < tail
      ensures Edge(s, tb, q1, t) && FreeOrChild(s, tb, th, q1, t) && ChildIsHit(s, tb, th, q1, t)
    {
      assert Edge(s, tb, q, t) && FreeOrChild(s, tb, th, q, t) && ChildIsHit(s, tb, th, q, t);
    }
    assert Nodes(q1, tail) == Nodes(q, tail);
  }

  lemma BlockedInTree(s: Setup, tb: seq<BStuff>, th: seq<int>, q: seq<QStuff>, tail: nat, b: int, i: nat,
                      highwater: nat, mapped: set<nat>)
    requires s.Valid(tb, th, mapped) && Clean(tb, q, tail, mapped, highwater) && i < |s.scramble|
    requires Blocked(s, th, b, i, MarkedGroups(tb, highwater))
    ensures Blocked(s, th, b, i, Nodes(q, tail))
  {
    if k :| InGroup(s, k, b) && Hit(s, th, k, i) in MarkedGroups(tb, highwater) {
      assert th[s.Hash(k, i)] != NIL;
      assert Hit(s, th, k, i) in mapped;
    }
  }

  /** What one value that did not finish the search leaves behind. */
  ghost predicate Explored(s: Setup, tb0: seq<BStuff>, tb: seq<BStuff>, th: seq<int>, q0: seq<QStuff>, q: seq<QStuff>,
                           tail: nat, newtail: nat, at: nat, i: nat, highwater: nat, mapped: set<nat>, item: nat)
    requires at < tail <= |q0| && i < |s.scramble|
  {
    && OnlyMarked(tb, tb0, highwater)
    && Exploring(s, tb, th, q, newtail, highwater, mapped, item)
    && tail <= newtail <= tail + 1 && |q| == |q0| && q[..tail] == q0[..tail]
    && (at == 0 ==> !Fits(s, th, item, i))
    && (Clean(tb0, q0, tail, mapped, highwater) ==>
          && Clean(tb, q, newtail, mapped, highwater)
          && Barred(s, th, item, q[at].b, i, Nodes(q, newtail)))
  }

  lemma ExploredByGrowing(s: Setup, tb: seq<BStuff>, tb1: seq<BStuff>, th: seq<int>, q: seq<QStuff>, q1: seq<QStuff>,
                          tail: nat, newtail: nat, at: nat, i: nat, childb: nat, highwater: nat, mapped: set<nat>,
                          item: nat)
    requires Exploring(s, tb, th, q, tail, highwater, mapped, item)
    requires at < tail < |q| && i < |s.scramble| && newtail == tail + 1
    requires childb in mapped && childb < |tb| && tb[childb].water != highwater
    requires tb1 == tb[childb := tb[childb].(water := highwater)]
    requires q1 == q[tail := QStuff(childb, at, i, tb[q[at].b].val)]
    requires HitsKnown(s, tb, th, q1, newtail) && Rooted(q1, newtail)
    requires Meets(s, th, q[at].b, i, childb)
    ensures Explored(s, tb, tb1, th, q, q1, tail, newtail, at, i, highwater, mapped, item)
  {
    TreeGrown(s, tb, tb1, th, q, q1, tail, newtail, at, i, childb, highwater, mapped, item);
    var k :| InGroup(s, k, q[at].b) && s.Hash(k, i) < s.highhash && InGroup(s, th[s.Hash(k, i)], childb);
    assert q1[tail].b == childb && childb in Nodes(q1, newtail);
    assert Hit(s, th, k, i) == childb && q1[at].b == q[at].b;
  }

  lemma ExploredBySkipping(s: Setup, tb: seq<BStuff>, th: seq<int>, q: seq<QStuff>, tail: nat, at: nat, i: nat,
                           highwater: nat, mapped: set<nat>, item: nat)
    requires Exploring(s, tb, th, q, tail, highwater, mapped, item) && at < tail && i < |s.scramble|
    requires !Fits(s, th, q[at].b, i)
    requires Blocked(s, th, q[at].b, i, MarkedGroups(tb, highwater))
    ensures Explored(s, tb, tb, th, q, q, tail, tail, at, i, highwater, mapped, item)
  {
    if Clean(tb, q, tail, mapped, highwater) {
      BlockedInTree(s, tb, th, q, tail, q[at].b, i, highwater, mapped);
    }
  }

  lemma TreeGrows(s: Setup, tb: seq<BStuff>, tb1: seq<BStuff>, th: seq<int>, q: seq<QStuff>, q1: seq<QStuff>,
                  tail: nat, newtail: nat, at: nat, i: nat, childb: nat, highwater: nat, mapped: set<nat>, item: nat)
    requires Exploring(s, tb, th, q, tail, highwater, mapped, item) && at < tail < |q| && i < |s.scramble|
    requires childb in mapped && childb < |tb| && tb[childb].water != highwater && newtail == tail + 1
    requires MeetsOnly(s, th, q[at].b, i, childb) && Meets(s, th, q[at].b, i, childb)
    requires 0 <= q[at].b < |tb| && q1 == q[tail := QStuff(childb, at, i, tb[q[at].b].val)]
    requires tb1 == tb[childb := tb[childb].(water := highwater)]
    ensures Explored(s, tb, tb1, th, q, q1, tail, newtail, at, i, highwater, mapped, item)
  {
    EntryAdded(s, tb, th, q, q1, tail, at, i, childb, highwater, mapped, item);
    ExploredByGrowing(s, tb, tb1, th, q, q1, tail, newtail, at, i, childb, highwater, mapped, item);
  }

  // A child group was found: put it into the tree and mark it.
  method GrowTree(s: Setup, tabb: array<BStuff>, tabq: array<QStuff>, tail: nat, at: nat, i: nat, childb: nat,
                  highwater: nat, ghost tb: seq<BStuff>, ghost th: seq<int>, ghost q: seq<QStuff>,
                  ghost mapped: set<nat>, ghost item: nat) returns (newtail: nat)
    requires tb == tabb[..] && q == tabq[..] && |th| == s.highhash && at < tail < |q| && i < |s.scramble|
    requires Exploring(s, tb, th, q, tail, highwater, mapped, item)
    requires childb in mapped && childb < |tb| && tb[childb].water != highwater
    requires MeetsOnly(s, th, q[at].b, i, childb) && Meets(s, th, q[at].b, i, childb)
    modifies tabb, tabq
    ensures newtail == tail + 1
    ensures Explored(s, tb, tabb[..], th, q, tabq[..], tail, newtail, at, i, highwater, mapped, item)
  {
    tabq[tail] := QStuff(childb, at, i, tabb[tabq[at].b].val);
    tabb[childb] := tabb[childb].(water := highwater);
    newtail := tail + 1;
    TreeGrows(s, tb, tabb[..], th, q, tabq[..], tail, newtail, at, i, childb, highwater, mapped, item);
  }

  lemma PathEnds(q: seq<QStuff>, q1: seq<QStuff>, tail: nat, at: nat, i: nat, old_val: nat)
    requires at < tail < |q| && Rooted(q, tail) && q1 == q[tail := QStuff(NIL, at, i, old_val)]
    ensures Rooted(q1, tail + 1)
    ensures |PathOf(q1, tail)| > 0 && PathOf(q1, tail)[|PathOf(q1, tail)| - 1] == Move(q[at].b, i)
    ensures at == 0 ==> PathOf(q1, tail) == [Move(q[0].b, i)]
  {
    assert PathOf(q1, tail) == PathOf(q1, at) + [Move(q[at].b, i)];
  }

  // The path to the new entry, on which everything is known.
  lemma PathKnown(s: Setup, tb: seq<BStuff>, th: seq<int>, q: seq<QStuff>, q1: seq<QStuff>, tail: nat, at: nat,
                  i: nat, highwater: nat, mapped: set<nat>, item: nat)
    requires Exploring(s, tb, th, q, tail, highwater, mapped, item) && at < tail < |q| && i < |s.scramble|
    requires 0 <= q[at].b < |tb| && q1 == q[tail := QStuff(NIL, at, i, tb[q[at].b].val)]
    requires Fits(s, th, q[at].b, i)
    ensures Rooted(q1, tail + 1) && Finished(s, tb, th, q1, tail + 1) && Tree(s, tb, q1, tail + 1, mapped, item)
    ensures var p := PathOf(q1, tail);
      && Augmenting(s, th, p, item, Nodes(q1, tail)) && Augmenting(s, th, p, item, mapped + {item})
      && p[|p| - 1] == Move(q[at].b, i) && (at == 0 ==> p == [Move(item, i)] && !Clashes(s, p))
  {
    EntryAdded(s, tb, th, q, q1, tail, at, i, NIL, highwater, mapped, item);
    PathEnds(q, q1, tail, at, i, tb[q[at].b].val);
    PathIsAugmenting(s, tb, th, q1, tail);
    assert Nodes(q1, tail) <= mapped + {item};
    if at == 0 {
      OneMoveDoesNotClash(s, PathOf(q1, tail));
    }
  }

  lemma ExploredByClashing(s: Setup, tb: seq<BStuff>, th: seq<int>, q: seq<QStuff>, q1: seq<QStuff>, tail: nat,
                           at: nat, i: nat, highwater: nat, mapped: set<nat>, item: nat)
    requires Exploring(s, tb, th, q, tail, highwater, mapped, item) && 0 < at < tail < |q| && i < |s.scramble|
    requires Rooted(q1, tail + 1) && |q1| == |q| && q1[..tail] == q[..tail]
    requires Augmenting(s, th, PathOf(q1, tail), item, Nodes(q1, tail)) && Clashes(s, PathOf(q1, tail))
    requires PathOf(q1, tail)[|PathOf(q1, tail)| - 1] == Move(q[at].b, i)
    ensures Explored(s, tb, tb, th, q, q1, tail, tail, at, i, highwater, mapped, item)
  {
    LastEntryIgnored(s, tb, th, q, q1, tail, highwater, mapped, item);
    assert OnlyMarked(tb, tb, highwater);
    assert q1[..tail][at] == q1[at] && q[..tail][at] == q[at];
  }

  /** What a successful attempt with value i for the group at position at has done. */
  ghost predicate Won(s: Setup, tb0: seq<BStuff>, th0: seq<int>, tb: seq<BStuff>, th: seq<int>, p: seq<Move>, at: nat,
                      i: nat, highwater: nat, mapped: set<nat>, item: nat)
  {
    && s.Valid(tb, th, mapped + {item}) && ListsKept(tb, tb0, highwater) && |th0| == s.highhash && i < |s.scramble|
    && Took(s, th0, tb0, tb, p, item, mapped)
    && (at == 0 ==> p == [Move(item, i)] && Fits(s, th0, item, i))
  }

  lemma WonByPath(s: Setup, tb0: seq<BStuff>, th0: seq<int>, tb: seq<BStuff>, th: seq<int>, p: seq<Move>, at: nat,
                  i: nat, highwater: nat, mapped: set<nat>, item: nat)
    requires |th0| == s.highhash && i < |s.scramble|
    requires s.Valid(tb, th, mapped + {item}) && SameLists(tb, tb0) && Shifted(tb0, tb, p, 0)
    requires Augmenting(s, th0, p, item, mapped + {item})
    requires at == 0 ==> p == [Move(item, i)] && Fits(s, th0, item, i)
    ensures Won(s, tb0, th0, tb, th, p, at, i, highwater, mapped, item)
  {
  }

  // No collision at all: put in an entry without a group and apply its path.
  method FinishPath(s: Setup, tabb: array<BStuff>, tabh: array<int>, tabq: array<QStuff>, tail: nat, at: nat, i: nat,
                    ghost tb: seq<BStuff>, ghost th: seq<int>, ghost q: seq<QStuff>, ghost highwater: nat,
                    ghost mapped: set<nat>, ghost item: nat)
                      returns (ok: bool, ghost p: seq<Move>)
    requires tb == tabb[..] && th == tabh[..] && q == tabq[..]
    requires |th| == s.highhash && at < tail < |q| && i < |s.scramble|
    requires Exploring(s, tb, th, q, tail, highwater, mapped, item) && Fits(s, th, q[at].b, i)
    modifies tabb, tabh, tabq
    ensures !ok || Won(s, tb, th, tabb[..], tabh[..], p, at, i, highwater, mapped, item)
    ensures ok || (tabb[..] == tb && tabh[..] == th)
    ensures ok || Explored(s, tb, tb, th, q, tabq[..], tail, tail, at, i, highwater, mapped, item)
  {
    tabq[tail] := QStuff(NIL, at, i, tabb[tabq[at].b].val);
    ghost var q1 := tabq[..];
    PathKnown(s, tb, th, q, q1, tail, at, i, highwater, mapped, item);
    p := PathOf(q1, tail);
    assert tabb[..] == tb && tabh[..] == th;
    ok := Apply(s, tabb, tabh, tabq, tail + 1, mapped, item);
    if ok {
      WonByPath(s, tb, th, tabb[..], tabh[..], p, at, i, highwater, mapped, item);
    } else {
      if at == 0 {
        assert false;
      }
      ExploredByClashing(s, tb, th, q, q1, tail, at, i, highwater, mapped, item);
    }
    assert tabq[..] == q1;
  }

  lemma TreeEntry(s: Setup, tb: seq<BStuff>, th: seq<int>, q: seq<QStuff>, tail: nat, at: nat, highwater: nat,
                  mapped: set<nat>, item: nat)
    requires Exploring(s, tb, th, q, tail, highwater, mapped, item) && at < tail
    ensures 0 <= q[at].b < |tb| && tail <= |tb| && (at == 0 ==> q[at].b == item)
  {
    TreeIsSmall(q, tail, mapped, item, |tb|);
  }

  /** One value i for the group at tree position at: skip it, grow the tree, or try the finished path. */
  method Explore(s: Setup, tabb: array<BStuff>, tabh: array<int>, tabq: array<QStuff>, tail: nat, at: nat, i: nat,
                 highwater: nat, ghost tb: seq<BStuff>, ghost th: seq<int>, ghost q: seq<QStuff>,
                 ghost mapped: set<nat>, ghost item: nat)
                   returns (ok: bool, newtail: nat, ghost p: seq<Move>)
    requires tb == tabb[..] && th == tabh[..] && q == tabq[..]
    requires |th| == s.highhash && at < tail && i < |s.scramble|
    requires Exploring(s, tb, th, q, tail, highwater, mapped, item)
    modifies tabb, tabh, tabq
    ensures !ok || Won(s, tb, th, tabb[..], tabh[..], p, at, i, highwater, mapped, item)
    ensures ok || tabh[..] == th
    ensures ok || Explored(s, tb, tabb[..], th, q, tabq[..], tail, newtail, at, i, highwater, mapped, item)
  {
    TreeEntry(s, tb, th, q, tail, at, highwater, mapped, item);
    var usable, childb := Scan(s, tabb, tabh, tabq[at].b, i, highwater, mapped);
    p := [];
    if usable && childb != NIL {
      newtail := GrowTree(s, tabb, tabq, tail, at, i, childb, highwater, tb, th, q, mapped, item);
      ok := false;
    } else if usable {
      ok, p := FinishPath(s, tabb, tabh, tabq, tail, at, i, tb, th, q, highwater, mapped, item);
      newtail := tail;
    } else {
      ExploredBySkipping(s, tb, th, q, tail, at, i, highwater, mapped, item);
      ok, newtail := false, tail;
    }
  }

  // ---- augment ---------------------------------------------------------------------------------

  /** Every group of the tree before position at, and at itself for values below i, is barred by the tree. */
  ghost predicate Exhausted(s: Setup, th: seq<int>, q: seq<QStuff>, tail: nat, at: nat, i: nat, limit: nat, item: nat)
    requires limit <= |s.scramble| && |th| == s.highhash && tail <= |q|
  {
    forall t, v :: 0 <= t < tail && 0 <= v < limit && (t < at || (t == at && v < i)) && q[t].b >= 0 ==>
      Barred(s, th, item, q[t].b, v, Nodes(q, tail))
  }

  /** No group in the set can take any value: all that would have to move for it is in the set, or in its own way. */
  ghost predicate Closed(s: Setup, th: seq<int>, nodes: set<nat>, mapped: set<nat>, item: nat, limit: nat)
    requires limit <= |s.scramble| && |th| == s.highhash
  {
    && item in nodes && nodes <= mapped + {item}
    && forall b, v :: b in nodes && 0 <= v < limit ==> Barred(s, th, item, b, v, nodes)
  }

  lemma BarredInMore(s: Setup, th: seq<int>, item: nat, b: int, v: nat, nodes: set<nat>, more: set<nat>)
    requires v < |s.scramble| && |th| == s.highhash && Barred(s, th, item, b, v, nodes) && nodes <= more
    ensures Barred(s, th, item, b, v, more)
  {
    if !Blocked(s, th, b, v, nodes) {
      var p :| Augmenting(s, th, p, item, nodes) && p[|p| - 1] == Move(b, v) && Clashes(s, p);
      assert Augmenting(s, th, p, item, more);
    }
  }

  lemma MoreNodes(q0: seq<QStuff>, q: seq<QStuff>, tail: nat, newtail: nat)
    requires tail <= newtail <= |q| && |q| == |q0| && q[..tail] == q0[..tail]
    ensures Nodes(q0, tail) <= Nodes(q, newtail)
    ensures forall t :: 0 <= t < tail ==> q[t] == q0[t]
  {
    assert forall t :: 0 <= t < tail ==> q[..tail][t] == q[t] && q0[..tail][t] == q0[t];
    forall b | b in Nodes(q0, tail)
      ensures b in Nodes(q, newtail)
    {
      var t :| 0 <= t < tail && q0[t].b >= 0 && q0[t].b == b;
      assert q[t].b == b;
    }
  }

  lemma ExhaustedStep(s: Setup, th: seq<int>, q0: seq<QStuff>, q: seq<QStuff>, tail: nat, newtail: nat, at: nat,
                      i: nat, limit: nat, item: nat)
    requires at < tail <= newtail <= |q| && |q| == |q0| && q[..tail] == q0[..tail]
    requires i < limit <= |s.scramble| && |th| == s.highhash
    requires Exhausted(s, th, q0, tail, at, i, limit, item)
    requires Barred(s, th, item, q[at].b, i, Nodes(q, newtail))
    ensures Exhausted(s, th, q, newtail, at, i + 1, limit, item)
  {
    MoreNodes(q0, q, tail, newtail);
    forall t, v | 0 <= t < newtail && 0 <= v < limit && (t < at || (t == at && v < i + 1)) && q[t].b >= 0
      ensures Barred(s, th, item, q[t].b, v, Nodes(q, newtail))
    {
      if !(t == at && v == i) {
        assert q[t] == q0[t];
        BarredInMore(s, th, item, q0[t].b, v, Nodes(q0, tail), Nodes(q, newtail));
      }
    }
  }

  // What is tracked to show that a failed search was exhaustive.
  ghost predicate Tracking(s: Setup, tb: seq<BStuff>, th: seq<int>, q: seq<QStuff>, tail: nat, at: nat, i: nat,
                           limit: nat, highwater: nat, mapped: set<nat>, item: nat)
    requires limit <= |s.scramble| && |th| == s.highhash
  {
    Clean(tb, q, tail, mapped, highwater) && Exhausted(s, th, q, tail, at, i, limit, item)
  }

  lemma TrackingStep(s: Setup, tb0: seq<BStuff>, tb: seq<BStuff>, th: seq<int>, q0: seq<QStuff>, q: seq<QStuff>,
                     tail: nat, newtail: nat, at: nat, i: nat, next: nat, highwater: nat, mapped: set<nat>, item: nat,
                     limit: nat)
    requires at < tail <= |q0| && i < limit <= |s.scramble| && next == i + 1
    requires Explored(s, tb0, tb, th, q0, q, tail, newtail, at, i, highwater, mapped, item)
    requires Tracking(s, tb0, th, q0, tail, at, i, limit, highwater, mapped, item)
    ensures Tracking(s, tb, th, q, newtail, at, next, limit, highwater, mapped, item)
  {
    ExhaustedStep(s, th, q0, q, tail, newtail, at, i, limit, item);
  }

  lemma TrackingNextGroup(s: Setup, tb: seq<BStuff>, th: seq<int>, q: seq<QStuff>, tail: nat, at: nat, next: nat,
                          limit: nat, highwater: nat, mapped: set<nat>, item: nat)
    requires limit <= |s.scramble| && |th| == s.highhash && next == at + 1
    requires Tracking(s, tb, th, q, tail, at, limit, limit, highwater, mapped, item)
    ensures Tracking(s, tb, th, q, tail, next, 0, limit, highwater, mapped, item)
  {
  }

  // No value below i can place the item at once.
  ghost predicate NoneFits(s: Setup, th: seq<int>, item: nat, i: nat)
    requires i <= |s.scramble| && |th| == s.highhash
  {
    forall v :: 0 <= v < i ==> !Fits(s, th, item, v)
  }

  /** The path is a single move to the least value that fits at once. */
  ghost predicate FirstFit(s: Setup, th: seq<int>, p: seq<Move>, item: nat, limit: nat)
    requires |th| == s.highhash && limit <= |s.scramble|
  {
    |p| == 1 && p[0].b == item && p[0].v < limit && Fits(s, th, item, p[0].v) && NoneFits(s, th, item, p[0].v)
  }

  lemma MarkedTwice(tb0: seq<BStuff>, tb1: seq<BStuff>, tb2: seq<BStuff>, highwater: nat)
    requires OnlyMarked(tb1, tb0, highwater) && (OnlyMarked(tb2, tb1, highwater) || ListsKept(tb2, tb1, highwater))
    ensures OnlyMarked(tb2, tb1, highwater) ==> OnlyMarked(tb2, tb0, highwater)
    ensures ListsKept(tb2, tb0, highwater)
  {
  }

  lemma TookAfterMarks(s: Setup, th: seq<int>, tb0: seq<BStuff>, tb1: seq<BStuff>, tb2: seq<BStuff>, highwater: nat,
                       p: seq<Move>, item: nat, mapped: set<nat>)
    requires |th| == s.highhash && OnlyMarked(tb1, tb0, highwater) && Took(s, th, tb1, tb2, p, item, mapped)
    ensures Took(s, th, tb0, tb2, p, item, mapped)
  {
  }

  /** The loop over the values of the group at tree position at stands before value i. */
  ghost predicate Trying(s: Setup, tb0: seq<BStuff>, tb: seq<BStuff>, th: seq<int>, q: seq<QStuff>, tail: nat,
                         newtail: nat, at: nat, i: nat, limit: nat, highwater: nat, mapped: set<nat>, item: nat,
                         tracking: bool)
  {
    && i <= limit <= |s.scramble| && |th| == s.highhash && at < tail <= newtail && OnlyMarked(tb, tb0, highwater)
    && Exploring(s, tb, th, q, newtail, highwater, mapped, item)
    && (at > 0 || NoneFits(s, th, item, i))
    && (tracking ==> Tracking(s, tb, th, q, newtail, at, i, limit, highwater, mapped, item))
  }

  lemma TriedOne(s: Setup, tb0: seq<BStuff>, tb: seq<BStuff>, tb1: seq<BStuff>, th: seq<int>, q: seq<QStuff>,
                 q1: seq<QStuff>, tail: nat, newtail: nat, newtail1: nat, at: nat, i: nat, next: nat, limit: nat,
                 highwater: nat, mapped: set<nat>, item: nat, tracking: bool)
    requires Trying(s, tb0, tb, th, q, tail, newtail, at, i, limit, highwater, mapped, item, tracking)
    requires i < limit && next == i + 1
    requires Explored(s, tb, tb1, th, q, q1, newtail, newtail1, at, i, highwater, mapped, item)
    ensures Trying(s, tb0, tb1, th, q1, tail, newtail1, at, next, limit, highwater, mapped, item, tracking)
  {
    MarkedTwice(tb0, tb, tb1, highwater);
    if tracking {
      TrackingStep(s, tb, tb1, th, q, q1, newtail, newtail1, at, i, next, highwater, mapped, item, limit);
    }
  }

  /** What a group has left behind when none of its values has finished the search; next is the next position. */
  ghost predicate AllTried(s: Setup, tb0: seq<BStuff>, tb: seq<BStuff>, th: seq<int>, q: seq<QStuff>, newtail: nat,
                           at: nat, next: nat, limit: nat, highwater: nat, mapped: set<nat>, item: nat, tracking: bool)
    requires limit <= |s.scramble| && |th| == s.highhash
  {
    && OnlyMarked(tb, tb0, highwater) && Exploring(s, tb, th, q, newtail, highwater, mapped, item)
    && (at > 0 || NoneFits(s, th, item, limit))
    && (tracking ==> Tracking(s, tb, th, q, newtail, next, 0, limit, highwater, mapped, item))
  }

  /** What a search that ended with success has done. */
  ghost predicate Added(s: Setup, tb0: seq<BStuff>, th0: seq<int>, tb: seq<BStuff>, th: seq<int>, p: seq<Move>,
                        highwater: nat, mapped: set<nat>, item: nat)
  {
    && s.Valid(tb, th, mapped + {item}) && ListsKept(tb, tb0, highwater) && |th0| == s.highhash
    && Took(s, th0, tb0, tb, p, item, mapped)
  }

  lemma WonAfterMarks(s: Setup, tb0: seq<BStuff>, th0: seq<int>, tb: seq<BStuff>, tb1: seq<BStuff>, th1: seq<int>,
                      p: seq<Move>, at: nat, i: nat, limit: nat, highwater: nat, mapped: set<nat>, item: nat)
    requires OnlyMarked(tb, tb0, highwater) && Won(s, tb, th0, tb1, th1, p, at, i, highwater, mapped, item)
    requires i < limit <= |s.scramble| && (at > 0 || NoneFits(s, th0, item, i))
    ensures Added(s, tb0, th0, tb1, th1, p, highwater, mapped, item)
    ensures at > 0 || FirstFit(s, th0, p, item, limit)
  {
    MarkedTwice(tb0, tb, tb1, highwater);
    TookAfterMarks(s, th0, tb0, tb, tb1, highwater, p, item, mapped);
  }

  /** All values of the group at tree position at. */
  method ExploreGroup(s: Setup, tabb: array<BStuff>, tabh: array<int>, tabq: array<QStuff>, tail: nat, at: nat,
                      limit: nat, highwater: nat, ghost next: nat, ghost mapped: set<nat>, ghost item: nat,
                      ghost tracking: bool)
                        returns (ok: bool, newtail: nat, ghost p: seq<Move>)
    requires tabh.Length == s.highhash && at < tail && limit <= |s.scramble| && next == at + 1
    requires Exploring(s, tabb[..], tabh[..], tabq[..], tail, highwater, mapped, item)
    requires !tracking || Tracking(s, tabb[..], tabh[..], tabq[..], tail, at, 0, limit, highwater, mapped, item)
    modifies tabb, tabh, tabq
    ensures !ok || Added(s, old(tabb[..]), old(tabh[..]), tabb[..], tabh[..], p, highwater, mapped, item)
    ensures !ok || at > 0 || FirstFit(s, old(tabh[..]), p, item, limit)
    ensures ok || (tail <= newtail && tabh[..] == old(tabh[..]))
    ensures ok || AllTried(s, old(tabb[..]), tabb[..], tabh[..], tabq[..], newtail, at, next, limit, highwater, mapped,
            item, tracking)
  {
    ghost var tb0, th0 := tabb[..], tabh[..];
    newtail := tail;
    var i := 0;
    while i < limit
      invariant tabh[..] == th0
      invariant Trying(s, tb0, tabb[..], th0, tabq[..], tail, newtail, at, i, limit, highwater, mapped, item, tracking)
    {
      ghost var tb, q, t := tabb[..], tabq[..], newtail;
      var following := i + 1;
      ok, newtail, p := Explore(s, tabb, tabh, tabq, newtail, at, i, highwater, tb, th0, q, mapped, item);
      if ok {
        WonAfterMarks(s, tb0, th0, tb, tabb[..], tabh[..], p, at, i, limit, highwater, mapped, item);
        return;
      }
      TriedOne(s, tb0, tb, tabb[..], th0, q, tabq[..], tail, t, newtail, at, i, following, limit, highwater, mapped,
               item, tracking);
      i := following;
    }
    if tracking {
      TrackingNextGroup(s, tabb[..], th0, tabq[..], newtail, at, next, limit, highwater, mapped, item);
    }
    ok, p := false, [];
  }

  ghost predicate NoMarks(tb: seq<BStuff>, mapped: set<nat>, highwater: nat) {
    forall c :: c in mapped && c < |tb| ==> tb[c].water != highwater
  }

  lemma TrackedSearchIsClosed(s: Setup, tb: seq<BStuff>, th: seq<int>, q: seq<QStuff>, tail: nat, limit: nat,
                              highwater: nat, mapped: set<nat>, item: nat)
    requires limit <= |s.scramble| && |th| == s.highhash
    requires Exploring(s, tb, th, q, tail, highwater, mapped, item)
    requires Tracking(s, tb, th, q, tail, tail, 0, limit, highwater, mapped, item)
    ensures Closed(s, th, Nodes(q, tail), mapped, item, limit)
  {
    var nodes := Nodes(q, tail);
    assert q[0].b == item;
    forall b, v | b in nodes && 0 <= v < limit
      ensures Barred(s, th, item, b, v, nodes)
    {
      var t :| 0 <= t < tail && q[t].b >= 0 && q[t].b == b;
      assert Barred(s, th, item, q[t].b, v, nodes);
    }
  }

  lemma TreeOfRoot(s: Setup, tb: seq<BStuff>, th: seq<int>, q: seq<QStuff>, limit: nat, highwater: nat,
                   mapped: set<nat>, item: nat)
    requires s.Valid(tb, th, mapped) && item < |tb| && item !in mapped && (forall b :: b in mapped ==> b < |tb|)
    requires |q| == |tb| + 1 && q[0].b == item && limit <= |s.scramble|
    ensures Exploring(s, tb, th, q, 1, highwater, mapped, item)
    ensures NoMarks(tb, mapped, highwater) ==> Tracking(s, tb, th, q, 1, 0, 0, limit, highwater, mapped, item)
  {
  }

  /**
    augment: adds the item to the mapping by an augmenting path, or leaves the mapping as it was.  If some value fits
    at once, then the least such value is taken and no other group moves.  Otherwise it fails without transitive
    closure; with it, it fails only if the groups that the search reached are closed: none can take any value.
   */
  method Augment(s: Setup, tabb: array<BStuff>, tabh: array<int>, tabq: array<QStuff>, item: nat, limit: nat,
                 trans: bool, highwater: nat, ghost mapped: set<nat>)
                   returns (ok: bool, ghost p: seq<Move>, ghost nodes: set<nat>)
    requires tabh.Length == s.highhash && tabq.Length == tabb.Length + 1 && limit <= |s.scramble|
    requires s.Valid(tabb[..], tabh[..], mapped)
    requires item < tabb.Length && item !in mapped && (forall b :: b in mapped ==> b < tabb.Length)
    modifies tabb, tabh, tabq
    ensures !ok || Added(s, old(tabb[..]), old(tabh[..]), tabb[..], tabh[..], p, highwater, mapped, item)
    ensures !ok || FirstFit(s, old(tabh[..]), p, item, limit)
            || (trans && NoneFits(s, old(tabh[..]), item, limit))
    ensures ok || tabh[..] == old(tabh[..])
    ensures ok || OnlyMarked(tabb[..], old(tabb[..]), highwater)
    ensures ok || NoneFits(s, tabh[..], item, limit)
    ensures trans && NoMarks(old(tabb[..]), mapped, highwater) ==> ok || Closed(s, tabh[..], nodes, mapped, item, limit)
  {
    ghost var tb0, th0 := tabb[..], tabh[..];
    ghost var tracking := trans && NoMarks(tb0, mapped, highwater);
    p, nodes := [], {};
    tabq[0] := tabq[0].(b := item);
    var tail, q := 1, 0;
    TreeOfRoot(s, tb0, th0, tabq[..], limit, highwater, mapped, item);
    while q < tail
      invariant 0 <= q <= tail && tabh[..] == th0 && (trans || q <= 1)
      invariant OnlyMarked(tabb[..], tb0, highwater)
      invariant Exploring(s, tabb[..], th0, tabq[..], tail, highwater, mapped, item)
      invariant q == 0 || NoneFits(s, th0, item, limit)
      invariant !tracking || Tracking(s, tabb[..], th0, tabq[..], tail, q, 0, limit, highwater, mapped, item)
      decreases tabb.Length - q
    {
      if !trans && q == 1 {
        ok := false;
        return;
      }
      TreeEntry(s, tabb[..], th0, tabq[..], tail, q, highwater, mapped, item);
      ghost var tb := tabb[..];
      var next := q + 1;
      ok, tail, p := ExploreGroup(s, tabb, tabh, tabq, tail, q, limit, highwater, next, mapped, item, tracking);
      if ok {
        AddedAfterMarks(s, tb0, th0, tb, tabb[..], tabh[..], p, highwater, mapped, item);
        return;
      }
      MarkedTwice(tb0, tb, tabb[..], highwater);
      q := next;
    }
    ok, nodes := false, Nodes(tabq[..], tail);
    if tracking {
      TrackedSearchIsClosed(s, tabb[..], th0, tabq[..], tail, limit, highwater, mapped, item);
    }
  }

  lemma AddedAfterMarks(s: Setup, tb0: seq<BStuff>, th0: seq<int>, tb: seq<BStuff>, tb1: seq<BStuff>, th1: seq<int>,
                        p: seq<Move>, highwater: nat, mapped: set<nat>, item: nat)
    requires OnlyMarked(tb, tb0, highwater) && Added(s, tb, th0, tb1, th1, p, highwater, mapped, item)
    ensures Added(s, tb0, th0, tb1, th1, p, highwater, mapped, item)
  {
    MarkedTwice(tb0, tb, tb1, highwater);
    TookAfterMarks(s, th0, tb0, tb, tb1, highwater, p, item, mapped);
  }

  // ---- among single keys a failed search proves that there is no perfect hash ------------------------

  /** No group has two keys: the search is then an ordinary bipartite matching. */
  ghost predicate Singles(s: Setup) {
    forall k, l :: s.IsKey(k) && s.IsKey(l) && k != l ==> s.keys[k].b != s.keys[l].b
  }

  /** tab[] gives every key a hash of its own below highhash. */
  ghost predicate PerfectTab(s: Setup, tab: seq<nat>, limit: nat) {
    && (forall b :: 0 <= b < |tab| ==> tab[b] < limit && tab[b] < |s.scramble|)
    && (forall k :: s.IsKey(k) ==> s.keys[k].b < |tab| && s.Hash(k, tab[s.keys[k].b]) < s.highhash)
    && (forall k, l :: s.IsKey(k) && s.IsKey(l) && k != l ==>
       s.Hash(k, tab[s.keys[k].b]) != s.Hash(l, tab[s.keys[l].b]))
  }

  /** No choice of tab[] over these groups is perfect. */
  ghost predicate NoTab(s: Setup, blen: nat) {
    forall tab: seq<nat> :: |tab| == blen ==> !PerfectTab(s, tab, |s.scramble|)
  }

  // The cell that a single key takes is left by the next group of the path, or free.
  lemma SingleLandsOnNext(s: Setup, th: seq<int>, p: seq<Move>, item: nat, nodes: set<nat>, j: nat, k: int)
    requires Singles(s) && |th| == s.highhash && Augmenting(s, th, p, item, nodes) && j < |p| && InGroup(s, k, p[j].b)
    ensures p[j].v < |s.scramble| && s.Hash(k, p[j].v) < |th|
    ensures if j + 1 < |p| then InGroup(s, th[s.Hash(k, p[j].v)], p[j + 1].b) else th[s.Hash(k, p[j].v)] == NIL
  {
    assert LinkAt(s, th, p, j, NIL);
    if j + 1 < |p| {
      assert p[j + 1].b in nodes;
      var l :| InGroup(s, l, p[j].b) && s.Hash(l, p[j].v) < s.highhash && InGroup(s, th[s.Hash(l, p[j].v)], p[j + 1].b);
      assert l == k;
    }
  }

  lemma SinglesNeverClash(s: Setup, th: seq<int>, p: seq<Move>, item: nat, nodes: set<nat>)
    requires Singles(s) && |th| == s.highhash && Augmenting(s, th, p, item, nodes)
    ensures !Clashes(s, p)
  {
    if Clashes(s, p) {
      var i, j, k, l :| 0 <= i < j < |p| && InGroup(s, k, p[i].b) && InGroup(s, l, p[j].b)
        && p[i].v < |s.scramble| && p[j].v < |s.scramble| && s.Hash(k, p[i].v) == s.Hash(l, p[j].v);
      assert j + 1 < |p| ==> p[i + 1].b != p[j + 1].b;
      SingleLandsOnNext(s, th, p, item, nodes, i, k);
      SingleLandsOnNext(s, th, p, item, nodes, j, l);
    }
  }

  /** What bars a single key: it leaves the range or meets a key of the set. */
  ghost predicate SoleBlocked(s: Setup, th: seq<int>, b: nat, v: nat, nodes: set<nat>)
    requires v < |s.scramble|
  {
    exists k :: InGroup(s, k, b) && (s.Hash(k, v) >= s.highhash || Hit(s, th, k, v) in nodes)
  }

  lemma BarredAmongSingles(s: Setup, th: seq<int>, item: nat, b: nat, v: nat, nodes: set<nat>)
    requires Singles(s) && v < |s.scramble| && |th| == s.highhash && Barred(s, th, item, b, v, nodes)
    ensures SoleBlocked(s, th, b, v, nodes)
  {
    if !Blocked(s, th, b, v, nodes) {
      var p :| Augmenting(s, th, p, item, nodes) && p[|p| - 1] == Move(b, v) && Clashes(s, p);
      SinglesNeverClash(s, th, p, item, nodes);
    }
  }

  /** With value v, a key of group b goes where a key of group c stands. */
  ghost predicate Displaces(s: Setup, th: seq<int>, b: nat, v: nat, c: nat) {
    exists k :: InGroup(s, k, b) && Hit(s, th, k, v) == c
  }

  lemma DisplacesOneToOne(s: Setup, tb: seq<BStuff>, th: seq<int>, mapped: set<nat>, tab: seq<nat>, b: nat, b': nat,
                          c: nat, limit: nat)
    requires s.Valid(tb, th, mapped) && Singles(s) && PerfectTab(s, tab, limit) && b < |tab| && b' < |tab|
    requires Displaces(s, th, b, tab[b], c) && Displaces(s, th, b', tab[b'], c)
    ensures b == b'
  {
    var k :| InGroup(s, k, b) && Hit(s, th, k, tab[b]) == c;
    var l :| InGroup(s, l, b') && Hit(s, th, l, tab[b']) == c;
    var g, h := s.Hash(k, tab[b]), s.Hash(l, tab[b']);
    assert s.Final(tb, th[g]) == g && s.Final(tb, th[h]) == h;
  }

  lemma DisplacedInside(s: Setup, tb: seq<BStuff>, th: seq<int>, nodes: set<nat>, mapped: set<nat>, item: nat,
                        limit: nat, tab: seq<nat>, b: nat) returns (c: nat)
    requires s.Valid(tb, th, mapped) && Singles(s) && limit <= |s.scramble| && item !in mapped
    requires Closed(s, th, nodes, mapped, item, limit) && b < |tab| && b in nodes && PerfectTab(s, tab, limit)
    ensures c in nodes - {item} && Displaces(s, th, b, tab[b], c)
  {
    BarredAmongSingles(s, th, item, b, tab[b], nodes);
    var k :| InGroup(s, k, b) && (s.Hash(k, tab[b]) >= s.highhash || Hit(s, th, k, tab[b]) in nodes);
    c := Hit(s, th, k, tab[b]);
    assert th[s.Hash(k, tab[b])] != NIL;
    assert c in mapped;
  }

  lemma {:induction false} DisplacedMap(s: Setup, tb: seq<BStuff>, th: seq<int>, nodes: set<nat>, mapped: set<nat>,
                                        item: nat, limit: nat, tab: seq<nat>, todo: set<nat>)
      returns (m: map<nat, nat>)
    requires s.Valid(tb, th, mapped) && Singles(s) && limit <= |s.scramble| && item !in mapped
    requires Closed(s, th, nodes, mapped, item, limit) && PerfectTab(s, tab, limit)
    requires todo <= nodes && forall b :: b in nodes ==> b < |tab|
    ensures m.Keys == todo
    ensures forall b :: b in todo ==> m[b] in nodes - {item} && b < |tab| && Displaces(s, th, b, tab[b], m[b])
    decreases todo
  {
    m := map[];
    if b :| b in todo {
      m := DisplacedMap(s, tb, th, nodes, mapped, item, limit, tab, todo - {b});
      var c := DisplacedInside(s, tb, th, nodes, mapped, item, limit, tab, b);
      m := m[b := c];
    }
  }

  /**
    Hall's argument: a closed set of n single-key groups holds only n - 1 cells, and every tab[] in which
    all values are below the limit sends their keys into those cells.
   */
  lemma ClosedMeansNoTab(s: Setup, tb: seq<BStuff>, th: seq<int>, nodes: set<nat>, mapped: set<nat>, item: nat,
                         limit: nat, tab: seq<nat>)
    requires s.Valid(tb, th, mapped) && Singles(s) && limit <= |s.scramble| && item !in mapped
    requires Closed(s, th, nodes, mapped, item, limit) && forall b :: b in nodes ==> b < |tab|
    ensures !PerfectTab(s, tab, limit)
  {
    if PerfectTab(s, tab, limit) {
      var m := DisplacedMap(s, tb, th, nodes, mapped, item, limit, tab, nodes);
      var b, c := Pigeonhole.CollisionWithout(m, nodes, item);
      DisplacesOneToOne(s, tb, th, mapped, tab, b, c, m[b], limit);
    }
  }
}
