/**
  The tables of lib/perfect/perfect.c while tab[] is being filled in: moving groups of keys, and apply with its
  rollback.
 */
module PerfectTable {
  import opened Words

  datatype Key = Key(a: nat, b: nat)

  /** What is indexed by b: the value being searched for, the keys with this b, and a visit mark. */
  datatype BStuff = BStuff(val: nat, list: seq<nat>, listlen: nat, water: nat)

  /** A node of the spanning tree; b == NIL is the null pointer. */
  datatype QStuff = QStuff(b: int, parent: nat, newval: nat, oldval: nat)

  const NIL := -1

  /** What stays fixed while tab[] is being filled in. */
  datatype Setup = Setup(keys: seq<Key>, scramble: seq<nat>, highhash: nat) {
    predicate IsKey(k: int) { 0 <= k < |keys| }

    /** The hash of key k if its group had value v. */
    function Hash(k: int, v: nat): nat
      requires IsKey(k) && v < |scramble|
    {
      Xor(keys[k].a, scramble[v])
    }

    /** The value of every group is a legal index of scramble. */
    ghost predicate Legal(tb: seq<BStuff>) {
      (forall b :: 0 <= b < |tb| ==> tb[b].val < |scramble|) && forall k :: IsKey(k) ==> keys[k].b < |tb|
    }

    /** The final hash a ^ scramble[tab[b]]. */
    ghost function Final(tb: seq<BStuff>, k: int): nat
      requires Legal(tb) && IsKey(k)
    {
      Hash(k, tb[keys[k].b].val)
    }

    /** The lists partition the keys by b, and keys with the same b differ in a. */
    ghost predicate Grouped(tb: seq<BStuff>) {
      && (forall k :: IsKey(k) ==> keys[k].b < |tb| && k in tb[keys[k].b].list)
      && (forall b :: 0 <= b < |tb| ==> GroupOk(b, tb[b]))
    }

    ghost predicate GroupOk(b: nat, g: BStuff) {
      && g.listlen == |g.list|
      && (forall n :: 0 <= n < |g.list| ==> IsKey(g.list[n]) && keys[g.list[n]].b == b)
      && (forall m, n :: 0 <= m < n < |g.list| ==> keys[g.list[m]].a != keys[g.list[n]].a)
    }

    /** Every final hash, also of groups that are not mapped yet, is a legal index of tabh. */
    ghost predicate InRange(tb: seq<BStuff>)
      requires Legal(tb)
    {
      forall k :: IsKey(k) ==> Final(tb, k) < highhash
    }

    /** A key stands in tabh only where it hashes to, and only if its group is in the set given. */
    ghost predicate Sound(tb: seq<BStuff>, th: seq<int>, groups: set<nat>)
      requires Legal(tb)
    {
      forall h :: 0 <= h < |th| && th[h] != NIL ==> IsKey(th[h]) && Final(tb, th[h]) == h && keys[th[h]].b in groups
    }

    /** Every key of group b stands in tabh where it hashes to. */
    ghost predicate Complete(tb: seq<BStuff>, th: seq<int>, b: nat)
      requires Legal(tb)
    {
      forall k :: IsKey(k) && keys[k].b == b ==> Final(tb, k) < |th| && th[Final(tb, k)] == k
    }

    /** tabh is exactly the inverse of the final hash on the keys of the mapped groups. */
    ghost predicate Inverse(tb: seq<BStuff>, th: seq<int>, mapped: set<nat>) {
      && Legal(tb)
      && |th| == highhash
      && Sound(tb, th, mapped)
      && (forall b :: b in mapped ==> Complete(tb, th, b))
    }

    ghost predicate Valid(tb: seq<BStuff>, th: seq<int>, mapped: set<nat>) {
      Grouped(tb) && Legal(tb) && InRange(tb) && Inverse(tb, th, mapped)
    }
  }

  lemma XorOneToOne(x: nat, y: nat, s: nat)
    requires Xor(x, s) == Xor(y, s)
    ensures x == y
  {
    XorCancel(x, s);
    XorCancel(y, s);
  }

  /** th without the keys of group b. */
  function Erased(s: Setup, th: seq<int>, b: nat): (r: seq<int>)
    ensures |r| == |th|
    ensures forall h :: 0 <= h < |th| ==> r[h] == if s.IsKey(th[h]) && s.keys[th[h]].b == b then NIL else th[h]
  {
    seq(|th|, h requires 0 <= h < |th| => if s.IsKey(th[h]) && s.keys[th[h]].b == b then NIL else th[h])
  }

  /** "erase old hash values": a key is removed only from a cell that holds it. */
  method EraseGroup(s: Setup, tabb: array<BStuff>, tabh: array<int>, b: nat, ghost groups: set<nat>)
    requires b < tabb.Length && tabh.Length == s.highhash
    requires s.Grouped(tabb[..]) && s.Legal(tabb[..]) && s.InRange(tabb[..]) && s.Sound(tabb[..], tabh[..], groups)
    modifies tabh
    ensures tabh[..] == Erased(s, old(tabh[..]), b)
  {
    var list := tabb[b].list;
    var stabb := s.scramble[tabb[b].val];
    ghost var th0 := tabh[..];
    var n := 0;
    while n < |list|
      invariant 0 <= n <= |list|
      invariant forall h :: 0 <= h < tabh.Length ==> tabh[h] == if th0[h] in list[..n] then NIL else th0[h]
    {
      assert s.GroupOk(b, tabb[b]);
      var hash := Xor(s.keys[list[n]].a, stabb);
      assert hash == s.Final(tabb[..], list[n]);
      if list[n] == tabh[hash] {
        tabh[hash] := NIL;
      }
      assert list[..n + 1] == list[..n] + [list[n]];
      n := n + 1;
    }
    assert list[..n] == list;
    assert s.GroupOk(b, tabb[b]);
    forall h | 0 <= h < tabh.Length
      ensures tabh[h] == Erased(s, th0, b)[h]
    {
      if s.IsKey(th0[h]) && s.keys[th0[h]].b == b {
        assert th0[h] in list;
      }
    }
  }

  // The cells that differ from th held nothing and now hold keys of the group where they hash to.
  ghost predicate OnlyAdded(s: Setup, tb: seq<BStuff>, th: seq<int>, th': seq<int>, b: nat)
    requires s.Legal(tb) && |th'| == |th|
  {
    forall h :: 0 <= h < |th| && th'[h] != th[h] ==>
      th[h] == NIL && s.IsKey(th'[h]) && s.keys[th'[h]].b == b && s.Final(tb, th'[h]) == h
  }

  /** "set new hash values" of apply without rollback: stops at the first cell that is taken. */
  method PlaceGroup(s: Setup, tabb: array<BStuff>, tabh: array<int>, b: nat) returns (ok: bool)
    requires b < tabb.Length && tabh.Length == s.highhash
    requires s.Grouped(tabb[..]) && s.Legal(tabb[..]) && s.InRange(tabb[..])
    requires forall h :: 0 <= h < tabh.Length && s.IsKey(tabh[h]) ==> s.keys[tabh[h]].b != b
    modifies tabh
    ensures OnlyAdded(s, tabb[..], old(tabh[..]), tabh[..], b)
    ensures ok ==> s.Complete(tabb[..], tabh[..], b)
    ensures !ok ==> exists k :: s.IsKey(k) && s.keys[k].b == b && old(tabh[..])[s.Final(tabb[..], k)] != NIL
  {
    var list := tabb[b].list;
    var stabb := s.scramble[tabb[b].val];
    ghost var th0 := tabh[..];
    ghost var tb := tabb[..];
    assert s.GroupOk(b, tb[b]);
    var n := 0;
    while n < |list|
      invariant 0 <= n <= |list|
      invariant OnlyAdded(s, tb, th0, tabh[..], b)
      invariant forall m :: 0 <= m < n ==> tabh[s.Final(tb, list[m])] == list[m]
      invariant forall h :: 0 <= h < |th0| && tabh[h] != th0[h] ==> tabh[h] in list[..n]
    {
      var hash := Xor(s.keys[list[n]].a, stabb);
      assert hash == s.Final(tb, list[n]);
      if tabh[hash] != NIL {
        if th0[hash] == NIL {
          var m :| 0 <= m < n && list[m] == tabh[hash];
          XorOneToOne(s.keys[list[m]].a, s.keys[list[n]].a, stabb);
          assert false;
        }
        return false;
      }
      tabh[hash] := list[n];
      assert list[..n + 1] == list[..n] + [list[n]];
      n := n + 1;
    }
    return true;
  }

  // The cells that differ from th now hold keys of the group where they hash to.
  ghost predicate OnlyWritten(s: Setup, tb: seq<BStuff>, th: seq<int>, th': seq<int>, b: nat)
    requires s.Legal(tb) && |th'| == |th|
  {
    forall h :: 0 <= h < |th| && th'[h] != th[h] ==>
      s.IsKey(th'[h]) && s.keys[th'[h]].b == b && s.Final(tb, th'[h]) == h
  }

  /** "set new hash values" of apply in rollback: overwrites whatever stands in the cells. */
  method RestoreGroup(s: Setup, tabb: array<BStuff>, tabh: array<int>, b: nat)
    requires b < tabb.Length && tabh.Length == s.highhash
    requires s.Grouped(tabb[..]) && s.Legal(tabb[..]) && s.InRange(tabb[..])
    modifies tabh
    ensures OnlyWritten(s, tabb[..], old(tabh[..]), tabh[..], b)
    ensures s.Complete(tabb[..], tabh[..], b)
  {
    var list := tabb[b].list;
    var stabb := s.scramble[tabb[b].val];
    ghost var th0 := tabh[..];
    ghost var tb := tabb[..];
    assert s.GroupOk(b, tb[b]);
    var n := 0;
    while n < |list|
      invariant 0 <= n <= |list|
      invariant OnlyWritten(s, tb, th0, tabh[..], b)
      invariant forall m :: 0 <= m < n ==> tabh[s.Final(tb, list[m])] == list[m]
    {
      var hash := Xor(s.keys[list[n]].a, stabb);
      assert hash == s.Final(tb, list[n]);
      forall m | 0 <= m < n
        ensures s.Final(tb, list[m]) != hash
      {
        if s.Final(tb, list[m]) == hash {
          XorOneToOne(s.keys[list[m]].a, s.keys[list[n]].a, stabb);
        }
      }
      tabh[hash] := list[n];
      n := n + 1;
    }
  }

  // ---- one group moved -------------------------------------------------------------------------

  function SetVal(tb: seq<BStuff>, b: nat, v: nat): seq<BStuff>
    requires b < |tb|
  {
    tb[b := tb[b].(val := v)]
  }

  /** tb and tb0 differ in values only. */
  ghost predicate SameLists(tb: seq<BStuff>, tb0: seq<BStuff>) {
    |tb| == |tb0| && forall b :: 0 <= b < |tb| ==> tb[b] == tb0[b].(val := tb[b].val)
  }

  lemma SameListsGrouped(s: Setup, tb: seq<BStuff>, tb0: seq<BStuff>)
    requires s.Grouped(tb0) && SameLists(tb, tb0)
    ensures s.Grouped(tb)
  {
    forall b | 0 <= b < |tb| ensures s.GroupOk(b, tb[b]) { assert s.GroupOk(b, tb0[b]); }
  }

  lemma SetValKeeps(s: Setup, tb: seq<BStuff>, tb0: seq<BStuff>, b: nat, v: nat)
    requires SameLists(tb, tb0) && s.Legal(tb) && s.InRange(tb) && b < |tb| && v < |s.scramble|
    requires forall k :: s.IsKey(k) && s.keys[k].b == b ==> s.Hash(k, v) < s.highhash
    ensures var tb1 := SetVal(tb, b, v);
      && SameLists(tb1, tb0) && s.Legal(tb1) && s.InRange(tb1)
      && forall k :: s.IsKey(k) ==> s.Final(tb1, k) == if s.keys[k].b == b then s.Hash(k, v) else s.Final(tb, k)
  {
  }

  // With group b erased, giving it a new value disturbs nobody else.
  lemma ErasedKeeps(s: Setup, tb: seq<BStuff>, th: seq<int>, b: nat, v: nat, groups: set<nat>)
    requires s.Legal(tb) && b < |tb| && v < |s.scramble| && s.Sound(tb, th, groups)
    ensures s.Legal(SetVal(tb, b, v))
    ensures s.Sound(SetVal(tb, b, v), Erased(s, th, b), groups - {b})
    ensures forall c: nat :: c != b && s.Complete(tb, th, c) ==> s.Complete(SetVal(tb, b, v), Erased(s, th, b), c)
  {
    var tb1 := SetVal(tb, b, v);
    var th1 := Erased(s, th, b);
    forall c: nat | c != b && s.Complete(tb, th, c)
      ensures s.Complete(tb1, th1, c)
    {
      forall k | s.IsKey(k) && s.keys[k].b == c
        ensures s.Final(tb1, k) < |th1| && th1[s.Final(tb1, k)] == k
      {
        assert s.Final(tb1, k) == s.Final(tb, k);
      }
    }
  }

  lemma AddedKeeps(s: Setup, tb: seq<BStuff>, th: seq<int>, th': seq<int>, b: nat, groups: set<nat>)
    requires s.Legal(tb) && |th'| == |th| && OnlyAdded(s, tb, th, th', b) && s.Sound(tb, th, groups)
    ensures s.Sound(tb, th', groups + {b})
    ensures forall c: nat :: s.Complete(tb, th, c) ==> s.Complete(tb, th', c)
  {
    forall c: nat | s.Complete(tb, th, c)
      ensures s.Complete(tb, th', c)
    {
      forall k | s.IsKey(k) && s.keys[k].b == c
        ensures s.Final(tb, k) < |th'| && th'[s.Final(tb, k)] == k
      {
        var h := s.Final(tb, k);
        assert th[h] == k;
      }
    }
  }

  // ---- the augmenting path ---------------------------------------------------------------------

  /** The spanning tree held by the first tail entries of tabq; the last entry may have no group. */
  ghost predicate Tree(s: Setup, tb: seq<BStuff>, q: seq<QStuff>, tail: nat, mapped: set<nat>, item: nat)
    requires s.Legal(tb)
  {
    && 1 <= tail <= |q| && q[0].b == item < |tb| && item !in mapped
    && (forall b :: b in mapped ==> b < |tb|)
    && (forall t :: 0 < t < tail ==> Edge(s, tb, q, t))
    && (forall t :: 0 < t < tail - 1 ==> q[t].b >= 0 && q[t].b in mapped)
  }

  /** Entry t tells how its parent's group can get legal hashes, and what its value was. */
  ghost predicate Edge(s: Setup, tb: seq<BStuff>, q: seq<QStuff>, t: nat)
    requires s.Legal(tb) && t < |q|
  {
    && q[t].parent < t
    && 0 <= q[q[t].parent].b < |tb|
    && q[t].newval < |s.scramble|
    && q[t].oldval == tb[q[q[t].parent].b].val
    && forall k :: s.IsKey(k) && s.keys[k].b == q[q[t].parent].b ==> s.Hash(k, q[t].newval) < s.highhash
  }

  ghost predicate Rooted(q: seq<QStuff>, tail: nat) {
    tail <= |q| && forall t :: 0 < t < tail ==> q[t].parent < t
  }

  /** The groups that change when the path from entry t up to the root is applied. */
  ghost function PathGroups(q: seq<QStuff>, t: nat): set<int>
    requires Rooted(q, t + 1)
  {
    if t == 0 then {} else {q[q[t].parent].b} + PathGroups(q, q[t].parent)
  }

  /** Group b gets value v. */
  datatype Move = Move(b: int, v: nat)

  /** The moves that apply makes for entry t, from the root down. */
  ghost function PathOf(q: seq<QStuff>, t: nat): seq<Move>
    requires Rooted(q, t + 1)
  {
    if t == 0 then [] else PathOf(q, q[t].parent) + [Move(q[q[t].parent].b, q[t].newval)]
  }

  // What an unfinished or failed walk can have done to the tables.
  ghost predicate Disturbed(s: Setup, tb0: seq<BStuff>, tb: seq<BStuff>, th: seq<int>, mapped: set<nat>, item: nat,
                            moved: set<int>)
  {
    && s.Grouped(tb0) && SameLists(tb, tb0) && s.Legal(tb) && s.InRange(tb) && |th| == s.highhash
    && s.Sound(tb, th, mapped + {item})
    && forall b: nat :: b < |tb| && b !in moved ==> tb[b] == tb0[b] && (b in mapped ==> s.Complete(tb, th, b))
  }

  lemma RestoredKeeps(s: Setup, tb: seq<BStuff>, th: seq<int>, th': seq<int>, tb0: seq<BStuff>, th0: seq<int>,
                      b: nat, c: nat, mapped: set<nat>, groups: set<nat>)
    requires s.Legal(tb) && |th'| == |th| && OnlyWritten(s, tb, th, th', b) && s.Sound(tb, th, groups)
    requires s.Valid(tb0, th0, mapped) && |tb| == |tb0| && b < |tb| && c < |tb|
    requires b in mapped && c in mapped && tb[b] == tb0[b] && tb[c] == tb0[c]
    requires b != c && s.Complete(tb, th, c)
    ensures s.Complete(tb, th', c)
  {
    forall k | s.IsKey(k) && s.keys[k].b == c
      ensures s.Final(tb, k) < |th'| && th'[s.Final(tb, k)] == k
    {
      var h := s.Final(tb, k);
      assert s.Complete(tb0, th0, b) && s.Complete(tb0, th0, c);
      assert th[h] == k && h == s.Final(tb0, k) && th0[h] == k;
    }
  }

  lemma AllRestored(s: Setup, tb0: seq<BStuff>, th0: seq<int>, tb: seq<BStuff>, th: seq<int>, mapped: set<nat>)
    requires s.Valid(tb0, th0, mapped) && |th| == |th0| && tb == tb0
    requires s.Sound(tb, th, mapped) && forall b :: b in mapped ==> s.Complete(tb, th, b)
    ensures th == th0
  {
    forall h | 0 <= h < |th|
      ensures th[h] == th0[h]
    {
      if th0[h] != NIL {
        assert s.Complete(tb, th, s.keys[th0[h]].b);
      }
      if th[h] != NIL {
        assert s.Complete(tb0, th0, s.keys[th[h]].b);
      }
    }
  }

  // One step of the rollback: group b gets its old value and, unless it is the root, its cells back.
  lemma RollbackStep(s: Setup, tb0: seq<BStuff>, th0: seq<int>, tb: seq<BStuff>, th: seq<int>, th2: seq<int>, b: nat,
                     mapped: set<nat>, item: nat, moved: set<int>)
    requires s.Valid(tb0, th0, mapped) && b < |tb0|
    requires Disturbed(s, tb0, tb, th, mapped, item, {b} + moved)
    requires s.Legal(SetVal(tb, b, tb0[b].val)) && s.InRange(SetVal(tb, b, tb0[b].val)) && |th2| == |th|
    requires b in mapped && OnlyWritten(s, SetVal(tb, b, tb0[b].val), Erased(s, th, b), th2, b)
    requires s.Complete(SetVal(tb, b, tb0[b].val), th2, b)
    ensures Disturbed(s, tb0, SetVal(tb, b, tb0[b].val), th2, mapped, item, moved)
  {
    var tb1, th1 := SetVal(tb, b, tb0[b].val), Erased(s, th, b);
    ErasedKeeps(s, tb, th, b, tb0[b].val, mapped + {item});
    assert tb1[b] == tb0[b];
    forall c: nat | c < |tb| && c !in moved
      ensures tb1[c] == tb0[c] && (c in mapped ==> s.Complete(tb1, th2, c))
    {
      if c != b {
        assert c !in {b} + moved;
        if c in mapped {
          RestoredKeeps(s, tb1, th1, th2, tb0, th0, b, c, mapped, mapped + {item} - {b});
        }
      }
    }
  }

  lemma RollbackRoot(s: Setup, tb0: seq<BStuff>, tb: seq<BStuff>, th: seq<int>, mapped: set<nat>, item: nat)
    requires s.Legal(tb0) && item < |tb0| && item !in mapped
    requires Disturbed(s, tb0, tb, th, mapped, item, {item})
    requires s.Legal(SetVal(tb, item, tb0[item].val)) && s.InRange(SetVal(tb, item, tb0[item].val))
    ensures Disturbed(s, tb0, SetVal(tb, item, tb0[item].val), Erased(s, th, item), mapped, item, {})
    ensures s.Sound(SetVal(tb, item, tb0[item].val), Erased(s, th, item), mapped)
  {
    ErasedKeeps(s, tb, th, item, tb0[item].val, mapped + {item});
  }

  lemma OldHashesInRange(s: Setup, tb0: seq<BStuff>, q: seq<QStuff>, t: nat)
    requires s.Legal(tb0) && s.InRange(tb0) && t < |q| && Edge(s, tb0, q, t)
    ensures forall k :: s.IsKey(k) && s.keys[k].b == q[q[t].parent].b ==> s.Hash(k, q[t].oldval) < s.highhash
  {
    forall k | s.IsKey(k) && s.keys[k].b == q[q[t].parent].b
      ensures s.Hash(k, q[t].oldval) < s.highhash
    {
      assert s.Final(tb0, k) == s.Hash(k, q[t].oldval);
    }
  }

  /**
    apply with rollback: from whatever a failed walk along the path has left,
    tabh and every value are put back exactly as they were.
   */
  method Rollback(s: Setup, tabb: array<BStuff>, tabh: array<int>, tabq: array<QStuff>, tail: nat,
                  ghost tb0: seq<BStuff>, ghost th0: seq<int>, ghost mapped: set<nat>, ghost item: nat)
    requires s.Valid(tb0, th0, mapped) && tabb.Length == |tb0| && tabh.Length == s.highhash
    requires 1 < tail && Tree(s, tb0, tabq[..], tail, mapped, item) && Rooted(tabq[..], tail)
    requires Disturbed(s, tb0, tabb[..], tabh[..], mapped, item, PathGroups(tabq[..], tail - 1))
    modifies tabb, tabh
    ensures tabb[..] == tb0 && tabh[..] == th0
  {
    ghost var q := tabq[..];
    var child := tail - 1;
    while child != 0
      invariant 0 <= child < tail
      invariant tabq[..] == q
      invariant Disturbed(s, tb0, tabb[..], tabh[..], mapped, item, PathGroups(q, child))
      invariant child == 0 ==> s.Sound(tabb[..], tabh[..], mapped)
    {
      assert Edge(s, tb0, q, child);
      var parent := tabq[child].parent;
      var b := tabq[parent].b;
      ghost var tb, th := tabb[..], tabh[..];
      SameListsGrouped(s, tb, tb0);
      EraseGroup(s, tabb, tabh, b, mapped + {item});
      tabb[b] := tabb[b].(val := tabq[child].oldval);
      ghost var tb1 := tabb[..];
      assert tb1 == SetVal(tb, b, q[child].oldval);
      OldHashesInRange(s, tb0, q, child);
      SetValKeeps(s, tb, tb0, b, q[child].oldval);
      SameListsGrouped(s, tb1, tb0);
      if parent != 0 {
        RestoreGroup(s, tabb, tabh, b);
      }
      assert PathGroups(q, child) == {b as int} + PathGroups(q, parent);
      if parent != 0 {
        RollbackStep(s, tb0, th0, tb, th, tabh[..], b, mapped, item, PathGroups(q, parent));
      } else {
        RollbackRoot(s, tb0, tb, th, mapped, item);
      }
      child := parent;
    }
    assert tabb[..] == tb0;
    AllRestored(s, tb0, th0, tabb[..], tabh[..], mapped);
  }

  // ---- applying an augmenting path -------------------------------------------------------------

  predicate InGroup(s: Setup, k: int, b: int) {
    s.IsKey(k) && s.keys[k].b == b
  }

  /** Under the value that entry t proposes, the parent's keys meet free cells and keys of t's group only. */
  ghost predicate FreeOrChild(s: Setup, tb: seq<BStuff>, th: seq<int>, q: seq<QStuff>, t: nat)
    requires s.Legal(tb) && t < |q| && Edge(s, tb, q, t) && |th| == s.highhash
  {
    forall k :: s.IsKey(k) && s.keys[k].b == q[q[t].parent].b ==>
      var h := s.Hash(k, q[t].newval);
      th[h] == NIL || InGroup(s, th[h], q[t].b)
  }

  ghost predicate ChildIsHit(s: Setup, tb: seq<BStuff>, th: seq<int>, q: seq<QStuff>, t: nat)
    requires s.Legal(tb) && t < |q| && Edge(s, tb, q, t) && |th| == s.highhash
  {
    q[t].b != NIL ==>
        exists k :: s.IsKey(k) && s.keys[k].b == q[q[t].parent].b && InGroup(s, th[s.Hash(k, q[t].newval)], q[t].b)
  }

  ghost predicate DistinctNodes(q: seq<QStuff>, tail: nat) {
    tail <= |q| && forall t, u :: 0 <= t < u < tail ==> q[t].b != q[u].b
  }

  ghost predicate HitsKnown(s: Setup, tb: seq<BStuff>, th: seq<int>, q: seq<QStuff>, tail: nat)
    requires s.Legal(tb) && tail <= |q| && |th| == s.highhash
  {
    forall t :: 0 < t < tail ==> Edge(s, tb, q, t) && FreeOrChild(s, tb, th, q, t) && ChildIsHit(s, tb, th, q, t)
  }

  // The walk is at child: the groups of deeper path entries have moved, all others stand as before.
  ghost predicate Walking(s: Setup, tb0: seq<BStuff>, tb: seq<BStuff>, th: seq<int>, q: seq<QStuff>, tail: nat,
                          child: nat, mapped: set<nat>, item: nat)
  {
    && Rooted(q, tail) && child < tail
    && SameLists(tb, tb0) && s.Legal(tb) && s.InRange(tb) && |th| == s.highhash
    && s.Sound(tb, th, if child == 0 then mapped + {item} else mapped)
    && (forall b :: b in mapped ==> s.Complete(tb, th, b))
    && (child == 0 ==> s.Complete(tb, th, item))
    && PathGroups(q, child) <= PathGroups(q, tail - 1)
    && (forall b :: 0 <= b < |tb| && b !in PathGroups(q, tail - 1) ==> tb[b] == tb0[b])
  }

  lemma WalkStep(s: Setup, tb0: seq<BStuff>, tb: seq<BStuff>, th: seq<int>, th2: seq<int>, q: seq<QStuff>, tail: nat,
                 child: nat, mapped: set<nat>, item: nat)
    requires s.Legal(tb0) && Tree(s, tb0, q, tail, mapped, item) && 0 < child < tail
    requires Walking(s, tb0, tb, th, q, tail, child, mapped, item)
    requires var b := q[q[child].parent].b;
      var tb1 := SetVal(tb, b, q[child].newval);
      && s.Legal(tb1) && s.InRange(tb1) && SameLists(tb1, tb0) && |th2| == |th|
      && OnlyAdded(s, tb1, Erased(s, th, b), th2, b) && s.Complete(tb1, th2, b)
    ensures Walking(s, tb0, SetVal(tb, q[q[child].parent].b, q[child].newval), th2, q, tail, q[child].parent, mapped,
            item)
  {
    assert Edge(s, tb0, q, child);
    var parent := q[child].parent;
    var b := q[parent].b;
    var tb1 := SetVal(tb, b, q[child].newval);
    ErasedKeeps(s, tb, th, b, q[child].newval, mapped);
    AddedKeeps(s, tb1, Erased(s, th, b), th2, b, mapped - {b});
    assert PathGroups(q, child) == {b} + PathGroups(q, parent);
  }

  lemma CollisionDisturbs(s: Setup, tb0: seq<BStuff>, tb: seq<BStuff>, th: seq<int>, th2: seq<int>, q: seq<QStuff>,
                          tail: nat, child: nat, mapped: set<nat>, item: nat)
    requires s.Legal(tb0) && s.Grouped(tb0) && Tree(s, tb0, q, tail, mapped, item) && 0 < child < tail
    requires Walking(s, tb0, tb, th, q, tail, child, mapped, item)
    requires var b := q[q[child].parent].b;
      var tb1 := SetVal(tb, b, q[child].newval);
      && s.Legal(tb1) && s.InRange(tb1) && SameLists(tb1, tb0) && |th2| == |th|
      && OnlyAdded(s, tb1, Erased(s, th, b), th2, b)
    ensures Disturbed(s, tb0, SetVal(tb, q[q[child].parent].b, q[child].newval), th2, mapped, item,
            PathGroups(q, tail - 1))
  {
    assert Edge(s, tb0, q, child);
    var b := q[q[child].parent].b;
    var tb1 := SetVal(tb, b, q[child].newval);
    ErasedKeeps(s, tb, th, b, q[child].newval, mapped);
    AddedKeeps(s, tb1, Erased(s, th, b), th2, b, mapped - {b});
    assert PathGroups(q, child) == {b} + PathGroups(q, q[child].parent);
  }

  /** The groups of p from position d on have the values of p, the others those they had. */
  ghost predicate Shifted(tb0: seq<BStuff>, tb: seq<BStuff>, p: seq<Move>, d: nat) {
    && d <= |p| && |tb| == |tb0|
    && (forall j :: d <= j < |p| ==> 0 <= p[j].b < |tb| && tb[p[j].b].val == p[j].v)
    && (forall b :: 0 <= b < |tb| && (forall j :: d <= j < |p| ==> p[j].b != b) ==> tb[b].val == tb0[b].val)
  }

  /** Two groups of the path claim the same cell. */
  ghost predicate Clashes(s: Setup, p: seq<Move>) {
    exists i, j, k, l :: 0 <= i < j < |p| && InGroup(s, k, p[i].b) && InGroup(s, l, p[j].b)
      && p[i].v < |s.scramble| && p[j].v < |s.scramble| && s.Hash(k, p[i].v) == s.Hash(l, p[j].v)
  }

  ghost predicate IsAbove(q: seq<QStuff>, t: nat, b: int) {
    t <= |q| && exists u :: 0 <= u < t && q[u].b == b
  }

  // Each group on the path is that of an entry above, so that none occurs twice.
  lemma {:induction false} PathIsDistinct(q: seq<QStuff>, t: nat)
    requires Rooted(q, t + 1) && DistinctNodes(q, t)
    ensures forall j :: 0 <= j < |PathOf(q, t)| ==> IsAbove(q, t, PathOf(q, t)[j].b)
    ensures forall i, j :: 0 <= i < j < |PathOf(q, t)| ==> PathOf(q, t)[i].b != PathOf(q, t)[j].b
  {
    if t > 0 {
      PathIsDistinct(q, q[t].parent);
    }
  }

  // Where the walk at child stands on its path.
  ghost predicate OnPath(tb0: seq<BStuff>, tb: seq<BStuff>, q: seq<QStuff>, tail: nat, child: nat)
    requires 0 < tail && child < tail && Rooted(q, tail)
  {
    var p, d := PathOf(q, tail - 1), |PathOf(q, child)|;
    && d <= |p| && PathOf(q, child) == p[..d] && Shifted(tb0, tb, p, d)
    && (if child == tail - 1 then d == |p| else d < |p| && p[d].b == q[child].b)
  }

  lemma PathStep(tb0: seq<BStuff>, tb: seq<BStuff>, q: seq<QStuff>, tail: nat, child: nat)
    requires Rooted(q, tail) && 0 < child < tail && OnPath(tb0, tb, q, tail, child) && DistinctNodes(q, tail - 1)
    requires 0 <= q[q[child].parent].b < |tb|
    ensures OnPath(tb0, SetVal(tb, q[q[child].parent].b, q[child].newval), q, tail, q[child].parent)
  {
    var parent := q[child].parent;
    var p, d := PathOf(q, tail - 1), |PathOf(q, child)|;
    var move := Move(q[parent].b, q[child].newval);
    assert PathOf(q, child) == PathOf(q, parent) + [move];
    assert p[..d][d - 1] == move && p[d - 1] == move;
    assert p[..d][..d - 1] == p[..d - 1];
    PathIsDistinct(q, tail - 1);
    forall j | d - 1 <= j < |p|
      ensures 0 <= p[j].b < |tb| && SetVal(tb, move.b, move.v)[p[j].b].val == p[j].v
    {
      assert j > d - 1 ==> p[d - 1].b != p[j].b;
    }
  }

  // A cell that is taken when a group gets there was taken by a group further down the path.
  lemma CollisionClashes(s: Setup, tb0: seq<BStuff>, th0: seq<int>, tb: seq<BStuff>, th: seq<int>, q: seq<QStuff>,
                         tail: nat, child: nat, mapped: set<nat>, k: int)
    requires s.Valid(tb0, th0, mapped) && Rooted(q, tail) && 0 < child < tail && OnPath(tb0, tb, q, tail, child)
    requires HitsKnown(s, tb0, th0, q, tail) && q[tail - 1].b == NIL && |th| == |th0|
    requires s.Legal(tb) && s.Sound(tb, th, mapped)
    requires Edge(s, tb0, q, child) && InGroup(s, k, q[q[child].parent].b)
    requires th[s.Hash(k, q[child].newval)] != NIL
    ensures Clashes(s, PathOf(q, tail - 1))
  {
    var p, d := PathOf(q, tail - 1), |PathOf(q, child)|;
    var h := s.Hash(k, q[child].newval);
    var x := th[h];
    var g := s.keys[x].b;
    assert PathOf(q, child)[d - 1] == Move(q[q[child].parent].b, q[child].newval) == p[d - 1];
    assert FreeOrChild(s, tb0, th0, q, child) && s.Complete(tb0, th0, g);
    assert tb[g].val == tb0[g].val ==> s.Final(tb0, x) == h;
    if j :| d <= j < |p| && p[j].b == g {
      assert InGroup(s, k, p[d - 1].b) && InGroup(s, x, p[j].b);
      assert s.Hash(x, p[j].v) == s.Final(tb, x) == h;
    } else {
      assert false;
    }
  }

  /** One iteration of apply without rollback: erase group b, change its value, set its new cells. */
  method MoveGroup(s: Setup, tabb: array<BStuff>, tabh: array<int>, b: nat, v: nat, ghost tb0: seq<BStuff>,
                   ghost groups: set<nat>)
    returns (ok: bool)
    requires b < tabb.Length && tabh.Length == s.highhash && v < |s.scramble|
    requires s.Grouped(tb0) && SameLists(tabb[..], tb0) && s.Legal(tabb[..]) && s.InRange(tabb[..])
    requires s.Sound(tabb[..], tabh[..], groups)
    requires forall k :: s.IsKey(k) && s.keys[k].b == b ==> s.Hash(k, v) < s.highhash
    modifies tabb, tabh
    ensures tabb[..] == SetVal(old(tabb[..]), b, v)
    ensures SameLists(tabb[..], tb0) && s.Legal(tabb[..]) && s.InRange(tabb[..])
    ensures OnlyAdded(s, tabb[..], Erased(s, old(tabh[..]), b), tabh[..], b)
    ensures ok ==> s.Complete(tabb[..], tabh[..], b)
    ensures !ok ==> exists k :: InGroup(s, k, b) && old(tabh[..])[s.Hash(k, v)] != NIL
  {
    ghost var tb, th := tabb[..], tabh[..];
    SameListsGrouped(s, tb, tb0);
    EraseGroup(s, tabb, tabh, b, groups);
    tabb[b] := tabb[b].(val := v);
    ghost var tb1, th1 := tabb[..], tabh[..];
    assert tb1 == SetVal(tb, b, v);
    SetValKeeps(s, tb, tb0, b, v);
    SameListsGrouped(s, tb1, tb0);
    ok := PlaceGroup(s, tabb, tabh, b);
    if !ok {
      ghost var k :| s.IsKey(k) && s.keys[k].b == b && th1[s.Final(tb1, k)] != NIL;
      assert InGroup(s, k, b) && th[s.Hash(k, v)] != NIL;
    }
  }

  // What apply knows at child about the walk.
  ghost predicate AtChild(s: Setup, tb0: seq<BStuff>, tb: seq<BStuff>, th: seq<int>, q: seq<QStuff>, tail: nat,
                          child: nat, mapped: set<nat>, item: nat)
  {
    0 < tail && Walking(s, tb0, tb, th, q, tail, child, mapped, item) && OnPath(tb0, tb, q, tail, child)
  }

  /** A tree whose last entry has no group: what it proposes meets free cells only. */
  ghost predicate Finished(s: Setup, tb: seq<BStuff>, th: seq<int>, q: seq<QStuff>, tail: nat)
    requires s.Legal(tb) && |th| == s.highhash
  {
    1 < tail <= |q| && q[tail - 1].b == NIL && HitsKnown(s, tb, th, q, tail) && DistinctNodes(q, tail - 1)
  }

  method ApplyEdge(s: Setup, tabb: array<BStuff>, tabh: array<int>, tabq: array<QStuff>, tail: nat, child: nat,
                   ghost tb0: seq<BStuff>, ghost th0: seq<int>, ghost mapped: set<nat>, ghost item: nat)
                       returns (ok: bool)
    requires s.Valid(tb0, th0, mapped) && Tree(s, tb0, tabq[..], tail, mapped, item) && 0 < child < tail
    requires Finished(s, tb0, th0, tabq[..], tail) && tabb.Length == |tb0| && tabh.Length == s.highhash
    requires AtChild(s, tb0, tabb[..], tabh[..], tabq[..], tail, child, mapped, item)
    modifies tabb, tabh
    ensures ok ==> AtChild(s, tb0, tabb[..], tabh[..], tabq[..], tail, tabq[child].parent, mapped, item)
    ensures !ok ==> Disturbed(s, tb0, tabb[..], tabh[..], mapped, item, PathGroups(tabq[..], tail - 1))
    ensures !ok ==> Rooted(tabq[..], tail) && Clashes(s, PathOf(tabq[..], tail - 1))
  {
    ghost var q := tabq[..];
    assert Edge(s, tb0, q, child);
    var b := tabq[tabq[child].parent].b;
    ghost var tb, th := tabb[..], tabh[..];
    ok := MoveGroup(s, tabb, tabh, b, tabq[child].newval, tb0, mapped);
    if ok {
      WalkStep(s, tb0, tb, th, tabh[..], q, tail, child, mapped, item);
      PathStep(tb0, tb, q, tail, child);
    } else {
      ghost var k :| InGroup(s, k, b) && th[s.Hash(k, q[child].newval)] != NIL;
      CollisionClashes(s, tb0, th0, tb, th, q, tail, child, mapped, k);
      CollisionDisturbs(s, tb0, tb, th, tabh[..], q, tail, child, mapped, item);
    }
  }

  /**
    apply: moves the groups on the path from the last tree entry up to the root, deepest first.  On
    success exactly these groups have moved, and tabh is again the exact inverse, now with the root's group;
    on a collision nothing has changed, and it is due to two groups of the path that claim the same cell.
   */
  method Apply(s: Setup, tabb: array<BStuff>, tabh: array<int>, tabq: array<QStuff>, tail: nat,
               ghost mapped: set<nat>, ghost item: nat) returns (ok: bool)
    requires tabh.Length == s.highhash && s.Valid(tabb[..], tabh[..], mapped)
    requires 1 < tail && Tree(s, tabb[..], tabq[..], tail, mapped, item) && Rooted(tabq[..], tail)
    requires Finished(s, tabb[..], tabh[..], tabq[..], tail)
    modifies tabb, tabh
    ensures ok ==> s.Valid(tabb[..], tabh[..], mapped + {item}) && SameLists(tabb[..], old(tabb[..]))
    ensures ok ==> Shifted(old(tabb[..]), tabb[..], PathOf(tabq[..], tail - 1), 0)
    ensures !ok ==> tabb[..] == old(tabb[..]) && tabh[..] == old(tabh[..])
    ensures !ok ==> Clashes(s, PathOf(tabq[..], tail - 1))
  {
    ghost var q, tb0, th0 := tabq[..], tabb[..], tabh[..];
    var child := tail - 1;
    assert PathOf(q, child) == PathOf(q, child)[..|PathOf(q, child)|];
    while child != 0
      invariant 0 <= child < tail && tabq[..] == q
      invariant AtChild(s, tb0, tabb[..], tabh[..], q, tail, child, mapped, item)
    {
      ok := ApplyEdge(s, tabb, tabh, tabq, tail, child, tb0, th0, mapped, item);
      if !ok {
        Rollback(s, tabb, tabh, tabq, tail, tb0, th0, mapped, item);
        return false;
      }
      child := tabq[child].parent;
    }
    SameListsGrouped(s, tabb[..], tb0);
    return true;
  }
}
