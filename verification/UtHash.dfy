/**
  The hash table of uthash.h: one list of all items in application order, which is that of their addition until
  it is sorted, and a chain for each bucket.
 */
module UtHash {
  import opened Basics
  import opened HashSort
  import Permute
  import opened Words

  type Key = seq<int>
  type Links = map<Ptr, Ptr>

  const THRESH := 10
  const INITIAL_LOG2 := 5

  datatype Bucket = Bucket(head: Ptr, count: nat, mult: nat)

  /** HASH_TO_BKT for a table of 2^log2 buckets. */
  function BktOf(hashv: nat, log2: nat): (r: nat)
    ensures r < Pow2(log2)
  {
    Permute.AndMask(hashv, log2);
    And(hashv, Pow2(log2) - 1)
  }

  // ---- changes of a linked list --------------------------------------------------------------------

  lemma AppendLinks(next: Links, prev: Links, head: Ptr, tail: Ptr, l: seq<Ptr>, x: Ptr)
    requires Linked(next, prev, head, tail, l) && |l| > 0 && x !in l && x != NULL
    ensures Linked(next[x := NULL][tail := x], prev[x := tail], head, x, l + [x])
  {
    var l', next', prev' := l + [x], next[x := NULL][tail := x], prev[x := tail];
    assert l[|l| - 1] in l;
    forall i | 0 <= i < |l'| ensures NextOk(next', l', i) && PrevOk(prev', l', i) {
      if i < |l| {
        assert NextOk(next, l, i) && PrevOk(prev, l, i) && l[i] in l;
      }
    }
    forall i | 0 <= i < |l| ensures l[i] != x { assert l[i] in l; }
  }

  lemma PrependLinks(next: Links, prev: Links, head: Ptr, l: seq<Ptr>, x: Ptr)
    requires Linked(next, prev, head, Last(l), l) && x !in l && x != NULL
    ensures Linked(next[x := head], (if head != NULL then prev[head := x] else prev)[x := NULL], x, Last([x] + l),
            [x] + l)
  {
    var l', next', prev' := [x] + l, next[x := head], (if head != NULL then prev[head := x] else prev)[x := NULL];
    assert |l| > 0 ==> l[0] in l;
    forall i | 0 <= i < |l'| ensures NextOk(next', l', i) && PrevOk(prev', l', i) {
      if i > 0 {
        assert NextOk(next, l, i - 1) && PrevOk(prev, l, i - 1) && l[i - 1] in l;
      }
    }
    forall i | 0 <= i < |l| ensures l[i] != x { assert l[i] in l; }
  }

  lemma DropAt(l: seq<Ptr>, p: nat, i: nat)
    requires p < |l| && i < |l| - 1
    ensures Without(l, p)[i] == l[if i < p then i else i + 1]
  {
  }

  lemma DropMembers(l: seq<Ptr>, p: nat)
    requires p < |l| && Distinct(l)
    ensures forall x :: x in Without(l, p) <==> x in l && x != l[p]
    ensures Distinct(Without(l, p))
  {
    var d := Without(l, p);
    forall x ensures x in d <==> x in l && x != l[p] {
      if x in d {
        var i :| 0 <= i < |d| && d[i] == x;
        DropAt(l, p, i);
      }
      if x in l && x != l[p] {
        var i :| 0 <= i < |l| && l[i] == x;
        assert d[if i < p then i else i - 1] == x;
      }
    }
    forall i, j | 0 <= i < j < |d| ensures d[i] != d[j] {
      DropAt(l, p, i);
      DropAt(l, p, j);
    }
  }

  /** Removing an item: its neighbours are linked to each other. */
  lemma UnlinkLinks(next: Links, prev: Links, head: Ptr, tail: Ptr, l: seq<Ptr>, p: nat)
    requires Linked(next, prev, head, tail, l) && p < |l|
    ensures l[p] in next && l[p] in prev
    ensures var x := l[p]; var a, b := prev[x], next[x];
            Linked(if a != NULL then next[a := b] else next, if b != NULL then prev[b := a] else prev,
                   if a != NULL then head else b, if tail == x then a else tail, Without(l, p))
  {
    var x := l[p];
    assert NextOk(next, l, p) && PrevOk(prev, l, p);
    var a, b := prev[x], next[x];
    assert a == NULL <==> p == 0 by { assert p > 0 ==> l[p - 1] in l; }
    assert b == NULL <==> p == |l| - 1 by { assert p < |l| - 1 ==> l[p + 1] in l; }
    var next', prev', d := if a != NULL then next[a := b] else next, if b != NULL then prev[b := a]
        else prev, Without(l, p);
    DropMembers(l, p);
    forall i | 0 <= i < |d| ensures NextOk(next', d, i) && PrevOk(prev', d, i) {
      var k := if i < p then i else i + 1;
      DropAt(l, p, i);
      assert NextOk(next, l, k) && PrevOk(prev, l, k);
      if i + 1 < |d| {
        DropAt(l, p, i + 1);
      }
      if i > 0 {
        DropAt(l, p, i - 1);
      }
    }
    if |d| > 0 {
      DropAt(l, p, 0);
      DropAt(l, p, |d| - 1);
    }
  }

  // A list is not touched by changes of the links of other items.
  lemma OtherLinks(next: Links, prev: Links, next': Links, prev': Links, head: Ptr, tail: Ptr, l: seq<Ptr>)
    requires Linked(next, prev, head, tail, l)
    requires forall x :: x in l && x in next && x in prev ==>
             x in next' && x in prev' && next'[x] == next[x] && prev'[x] == prev[x]
    ensures Linked(next', prev', head, tail, l)
  {
    forall i | 0 <= i < |l| ensures NextOk(next', l, i) && PrevOk(prev', l, i) {
      var x := l[i];
      assert NextOk(next, l, i) && PrevOk(prev, l, i);
      assert x in l && x in next && x in prev;
    }
  }

  // ---- the chains ------------------------------------------------------------------------------------

  /** Chain i: linked both ways, counted, and of items whose hash belongs there. */
  ghost predicate ChainOk(hn: Links, hp: Links, hashv: map<Ptr, nat>, log2: nat, b: Bucket, c: seq<Ptr>, i: nat) {
    && Linked(hn, hp, b.head, Last(c), c) && b.count == |c|
    && forall x :: x in c ==> x in hashv && BktOf(hashv[x], log2) == i
  }

  ghost predicate AtHome(hashv: map<Ptr, nat>, log2: nat, chains: seq<seq<Ptr>>, x: Ptr)
    requires |chains| == Pow2(log2)
  {
    x in hashv && x in chains[BktOf(hashv[x], log2)]
  }

  /** The chains hold exactly the items of l. */
  ghost predicate InChains(hn: Links, hp: Links, hashv: map<Ptr, nat>, log2: nat, bs: seq<Bucket>,
                           chains: seq<seq<Ptr>>, l: seq<Ptr>)
  {
    && |bs| == Pow2(log2) && |chains| == |bs|
    && (forall i {:trigger ChainOk(hn, hp, hashv, log2, bs[i], chains[i], i)} :: 0 <= i < |bs| ==>
          ChainOk(hn, hp, hashv, log2, bs[i], chains[i], i))
    && (forall x {:trigger AtHome(hashv, log2, chains, x)} :: x in l ==> AtHome(hashv, log2, chains, x))
    && (forall i, x {:trigger x in chains[i]} :: 0 <= i < |chains| && x in chains[i] ==> x in l)
  }

  /** HASH_ADD_TO_BKT without the expansion: the item goes to the front of its chain. */
  lemma PushChained(hn: Links, hp: Links, hashv: map<Ptr, nat>, log2: nat, bs: seq<Bucket>, chains: seq<seq<Ptr>>,
                    l: seq<Ptr>, x: Ptr, l': seq<Ptr>, mult: nat)
    requires InChains(hn, hp, hashv, log2, bs, chains, l) && x !in l && x != NULL && x in hashv
    requires forall y :: y in l' <==> y in l || y == x
    ensures var j := BktOf(hashv[x], log2); var head := bs[j].head;
            InChains(hn[x := head], (if head != NULL then hp[head := x] else hp)[x := NULL], hashv, log2,
                    bs[j := Bucket(x, bs[j].count + 1, mult)], chains[j := [x] + chains[j]], l')
  {
    var j := BktOf(hashv[x], log2);
    var head := bs[j].head;
    var hn', hp' := hn[x := head], (if head != NULL then hp[head := x] else hp)[x := NULL];
    var bs', chains' := bs[j := Bucket(x, bs[j].count + 1, mult)], chains[j := [x] + chains[j]];
    assert ChainOk(hn, hp, hashv, log2, bs[j], chains[j], j);
    assert |chains[j]| > 0 ==> chains[j][0] in chains[j];
    forall i | 0 <= i < |bs'| ensures ChainOk(hn', hp', hashv, log2, bs'[i], chains'[i], i) {
      assert ChainOk(hn, hp, hashv, log2, bs[i], chains[i], i);
      if i == j {
        PrependLinks(hn, hp, head, chains[j], x);
      } else {
        OtherLinks(hn, hp, hn', hp', bs[i].head, Last(chains[i]), chains[i]);
      }
    }
    forall y | y in l' ensures AtHome(hashv, log2, chains', y) { assert y != x ==> AtHome(hashv, log2, chains, y); }
    forall i, y | 0 <= i < |chains'| && y in chains'[i] ensures y in l' { assert y != x ==> y in chains[i]; }
  }

  /** HASH_DEL_IN_BKT. */
  lemma DropChained(hn: Links, hp: Links, hashv: map<Ptr, nat>, log2: nat, bs: seq<Bucket>, chains: seq<seq<Ptr>>,
                    l: seq<Ptr>, x: Ptr, p: nat, l': seq<Ptr>)
    requires InChains(hn, hp, hashv, log2, bs, chains, l) && x in hashv
    requires p < |chains[BktOf(hashv[x], log2)]| && chains[BktOf(hashv[x], log2)][p] == x
    requires forall y :: y in l' <==> y in l && y != x
    ensures x in hn && x in hp
    ensures var j := BktOf(hashv[x], log2); var a, b := hp[x], hn[x];
            && bs[j].count > 0 && (bs[j].head == x <==> a == NULL)
            && InChains(if a != NULL then hn[a := b] else hn, if b != NULL then hp[b := a] else hp, hashv, log2,
                       bs[j := Bucket(if bs[j].head == x then b else bs[j].head, bs[j].count - 1, bs[j].mult)],
                       chains[j := Without(chains[j], p)], l')
  {
    var j := BktOf(hashv[x], log2);
    var c := chains[j];
    assert ChainOk(hn, hp, hashv, log2, bs[j], c, j);
    UnlinkLinks(hn, hp, bs[j].head, Last(c), c, p);
    DropMembers(c, p);
    assert NextOk(hn, c, p) && PrevOk(hp, c, p);
    var a, b := hp[x], hn[x];
    assert p > 0 ==> c[p - 1] in c && c[0] in c;
    assert p + 1 < |c| ==> c[p + 1] in c;
    var hn', hp' := if a != NULL then hn[a := b] else hn, if b != NULL then hp[b := a] else hp;
    var bs', chains' := bs[j := Bucket(if bs[j].head == x then b else bs[j].head, bs[j].count - 1, bs[j].mult)],
        chains[j := Without(c, p)];
    forall i | 0 <= i < |bs'| ensures ChainOk(hn', hp', hashv, log2, bs'[i], chains'[i], i) {
      assert ChainOk(hn, hp, hashv, log2, bs[i], chains[i], i);
      if i == j {
        TailOfDrop(hn', hp', bs'[j].head, c, p, if Last(c) == x then a else Last(c));
      } else {
        OtherLinks(hn, hp, hn', hp', bs[i].head, Last(chains[i]), chains[i]);
      }
    }
    forall y | y in l' ensures AtHome(hashv, log2, chains', y) { assert AtHome(hashv, log2, chains, y); }
    forall i, y | 0 <= i < |chains'| && y in chains'[i] ensures y in l' {
      assert y in chains[i];
      assert ChainOk(hn, hp, hashv, log2, bs[i], chains[i], i);
    }
  }

  lemma TailOfDrop(hn: Links, hp: Links, head: Ptr, c: seq<Ptr>, p: nat, tail: Ptr)
    requires p < |c| && Linked(hn, hp, head, tail, Without(c, p))
    ensures Linked(hn, hp, head, Last(Without(c, p)), Without(c, p))
  {
  }

  function Counts(bs: seq<Bucket>): nat {
    if |bs| == 0 then 0 else Counts(bs[..|bs| - 1]) + bs[|bs| - 1].count
  }

  function Elems(l: seq<Ptr>): set<Ptr> { set x | x in l }

  lemma {:induction false} ElemsSize(l: seq<Ptr>)
    requires Distinct(l)
    ensures |Elems(l)| == |l|
  {
    if |l| > 0 {
      ElemsSize(l[1..]);
      assert Elems(l) == Elems(l[1..]) + {l[0]};
    }
  }

  function InFirst(chains: seq<seq<Ptr>>, n: nat): set<Ptr>
    requires n <= |chains|
  {
    if n == 0 then {} else InFirst(chains, n - 1) + Elems(chains[n - 1])
  }

  lemma {:induction false} InFirstIs(chains: seq<seq<Ptr>>, n: nat, x: Ptr)
    requires n <= |chains|
    ensures x in InFirst(chains, n) <==> exists i :: 0 <= i < n && x in chains[i]
  {
    if n > 0 {
      InFirstIs(chains, n - 1, x);
      if x in chains[n - 1] {
        assert x in Elems(chains[n - 1]);
      }
    }
  }

  lemma {:induction false} CountsFirst(hn: Links, hp: Links, hashv: map<Ptr, nat>, log2: nat, bs: seq<Bucket>,
                                       chains: seq<seq<Ptr>>, l: seq<Ptr>, n: nat)
    requires InChains(hn, hp, hashv, log2, bs, chains, l) && n <= |bs|
    ensures |InFirst(chains, n)| == Counts(bs[..n])
  {
    if n > 0 {
      CountsFirst(hn, hp, hashv, log2, bs, chains, l, n - 1);
      assert bs[..n][..n - 1] == bs[..n - 1];
      var c := chains[n - 1];
      assert ChainOk(hn, hp, hashv, log2, bs[n - 1], c, n - 1);
      ElemsSize(c);
      forall x | x in Elems(c) ensures x !in InFirst(chains, n - 1) {
        InFirstIs(chains, n - 1, x);
        assert x in c;
        forall i | 0 <= i < n - 1 ensures x !in chains[i] { assert ChainOk(hn, hp, hashv, log2, bs[i], chains[i], i); }
      }
    }
  }

  /** The counts of the buckets add up to the number of items. */
  lemma CountsAddUp(hn: Links, hp: Links, hashv: map<Ptr, nat>, log2: nat, bs: seq<Bucket>, chains: seq<seq<Ptr>>,
                    l: seq<Ptr>)
    requires InChains(hn, hp, hashv, log2, bs, chains, l) && Distinct(l)
    ensures Counts(bs) == |l|
  {
    CountsFirst(hn, hp, hashv, log2, bs, chains, l, |bs|);
    ElemsSize(l);
    assert bs[..|bs|] == bs;
    forall x ensures x in InFirst(chains, |bs|) <==> x in Elems(l) {
      InFirstIs(chains, |bs|, x);
      if x in l {
        assert AtHome(hashv, log2, chains, x);
      }
    }
    assert InFirst(chains, |bs|) == Elems(l);
  }

  // ---- expansion ---------------------------------------------------------------------------------------

  /** The items of a chain past the ideal length. */
  function Over(count: nat, ideal: nat): nat { if count > ideal then count - ideal else 0 }

  function Excess(bs: seq<Bucket>, ideal: nat): nat {
    if |bs| == 0 then 0 else Excess(bs[..|bs| - 1], ideal) + Over(bs[|bs| - 1].count, ideal)
  }

  lemma {:induction false} ExcessAt(bs: seq<Bucket>, j: nat, b: Bucket, ideal: nat)
    requires j < |bs|
    ensures Excess(bs[j := b], ideal) + Over(bs[j].count, ideal) == Excess(bs, ideal) + Over(b.count, ideal)
  {
    var n := |bs| - 1;
    if j < n {
      assert bs[j := b][..n] == bs[..n][j := b] && bs[j := b][n] == bs[n];
      ExcessAt(bs[..n], j, b, ideal);
    } else {
      assert bs[j := b][..n] == bs[..n];
    }
  }

  lemma {:induction false} NoExcess(n: nat, ideal: nat)
    ensures Excess(seq(n, _ => Bucket(NULL, 0, 0)), ideal) == 0
  {
    if n > 0 {
      assert seq(n, _ => Bucket(NULL, 0, 0))[..n - 1] == seq(n - 1, _ => Bucket(NULL, 0, 0));
      NoExcess(n - 1, ideal);
    }
  }

  ghost predicate MultOk(b: Bucket, ideal: nat)
    requires ideal > 0
  {
    b.mult == if b.count > ideal then b.count / ideal else 0
  }

  ghost predicate Remains(hn: Links, c: seq<Ptr>, k: nat, done: seq<Ptr>)
    requires k < |c|
  {
    NextOk(hn, c, k) && c[k] !in done && c[k] != NULL
  }

  /** The items from position p of chain i on wait to be moved; all before them are done. */
  ghost predicate ToMove(hn: Links, chains: seq<seq<Ptr>>, i: nat, p: nat, done: seq<Ptr>) {
    && i <= |chains| && (i < |chains| ==> p <= |chains[i]|)
    && (forall a, k {:trigger Remains(hn, chains[a], k, done)} ::
       i <= a < |chains| && (a == i ==> p <= k) && 0 <= k < |chains[a]| ==>
          Remains(hn, chains[a], k, done))
    && (forall a, k {:trigger chains[a][k]} ::
       0 <= a < |chains| && 0 <= k < |chains[a]| && (a < i || (a == i && k < p)) ==> chains[a][k] in done)
  }

  lemma AllToMove(hn: Links, hp: Links, hashv: map<Ptr, nat>, log2: nat, bs: seq<Bucket>, chains: seq<seq<Ptr>>,
                  l: seq<Ptr>)
    requires InChains(hn, hp, hashv, log2, bs, chains, l)
    ensures ToMove(hn, chains, 0, 0, [])
  {
    forall a, k | 0 <= a < |chains| && 0 <= k < |chains[a]| ensures Remains(hn, chains[a], k, []) {
      assert ChainOk(hn, hp, hashv, log2, bs[a], chains[a], a);
      assert NextOk(hn, chains[a], k) && chains[a][k] in chains[a];
    }
  }

  // One item is moved; the others still wait.
  lemma MovedOn(hn: Links, hp: Links, hashv: map<Ptr, nat>, log2: nat, bs: seq<Bucket>, chains: seq<seq<Ptr>>,
                l: seq<Ptr>, hn0: Links, i: nat, p: nat, done: seq<Ptr>, y: Ptr)
    requires InChains(hn0, hp, hashv, log2, bs, chains, l)
    requires ToMove(hn, chains, i, p, done) && i < |chains| && p < |chains[i]|
    ensures ToMove(hn[chains[i][p] := y], chains, i, p + 1, done + [chains[i][p]])
  {
    var x := chains[i][p];
    var hn', done' := hn[x := y], done + [x];
    assert Remains(hn, chains[i], p, done) && x in chains[i];
    assert ChainOk(hn0, hp, hashv, log2, bs[i], chains[i], i);
    forall a, k | i <= a < |chains| && (a == i ==> p + 1 <= k) && 0 <= k < |chains[a]|
        ensures Remains(hn', chains[a], k, done') {
      assert Remains(hn, chains[a], k, done) && chains[a][k] in chains[a];
      assert ChainOk(hn0, hp, hashv, log2, bs[a], chains[a], a);
    }
  }

  lemma NextBucket(hn: Links, chains: seq<seq<Ptr>>, i: nat, done: seq<Ptr>)
    requires i < |chains| && ToMove(hn, chains, i, |chains[i]|, done)
    ensures ToMove(hn, chains, i + 1, 0, done)
  {
    forall a, k | i + 1 <= a < |chains| && 0 <= k < |chains[a]| ensures Remains(hn, chains[a], k, done) {}
  }

  /** The new buckets so far: the items done, with the numbers that the expansion keeps. */
  ghost predicate Rebuilt(hn: Links, hp: Links, hashv: map<Ptr, nat>, log2: nat, nb: seq<Bucket>,
                          nchains: seq<seq<Ptr>>, done: seq<Ptr>, ideal: nat, nonideal: nat)
  {
    && InChains(hn, hp, hashv, log2, nb, nchains, done) && nonideal == Excess(nb, ideal) && ideal > 0
    && forall j {:trigger MultOk(nb[j], ideal)} :: 0 <= j < |nb| ==> MultOk(nb[j], ideal)
  }

  /** Item x was put in front of its new chain, and counted there. */
  lemma MovedIsRebuilt(hn: Links, hp: Links, hashv: map<Ptr, nat>, log2: nat, nb: seq<Bucket>, nchains: seq<seq<Ptr>>,
                       done: seq<Ptr>, ideal: nat, nonideal: nat, x: Ptr)
    requires Rebuilt(hn, hp, hashv, log2, nb, nchains, done, ideal, nonideal) && x !in done && x != NULL && x in hashv
    ensures var j := BktOf(hashv[x], log2); var b := nb[j]; var over := b.count + 1 > ideal;
            Rebuilt(hn[x := b.head], (if b.head != NULL then hp[b.head := x] else hp)[x := NULL], hashv, log2,
                    nb[j := Bucket(x, b.count + 1, if over then (b.count + 1) / ideal else b.mult)],
                    nchains[j := [x] + nchains[j]], done + [x], ideal, if over then nonideal + 1 else nonideal)
  {
    var j := BktOf(hashv[x], log2);
    var b := nb[j];
    assert MultOk(b, ideal);
    var mult := if b.count + 1 > ideal then (b.count + 1) / ideal else b.mult;
    PushChained(hn, hp, hashv, log2, nb, nchains, done, x, done + [x], mult);
    ExcessAt(nb, j, Bucket(x, b.count + 1, mult), ideal);
  }

  /** All items are done: the new chains are chains of the same items. */
  lemma AllMoved(hn0: Links, hp0: Links, hashv: map<Ptr, nat>, log2: nat, bs: seq<Bucket>, chains: seq<seq<Ptr>>,
                 l: seq<Ptr>, hn: Links, hp: Links, nb: seq<Bucket>, nchains: seq<seq<Ptr>>, done: seq<Ptr>)
    requires InChains(hn0, hp0, hashv, log2, bs, chains, l) && ToMove(hn, chains, |chains|, 0, done)
    requires InChains(hn, hp, hashv, log2 + 1, nb, nchains, done) && forall x :: x in done ==> x in l
    ensures InChains(hn, hp, hashv, log2 + 1, nb, nchains, l)
  {
    forall x | x in l ensures AtHome(hashv, log2 + 1, nchains, x) {
      assert AtHome(hashv, log2, chains, x);
      var a := BktOf(hashv[x], log2);
      var k :| 0 <= k < |chains[a]| && chains[a][k] == x;
      assert chains[a][k] in done;
      assert AtHome(hashv, log2 + 1, nchains, x);
    }
  }

  predicate IsCeiling(r: nat, items: nat, buckets: nat) {
    r > 0 && r * buckets >= items && (r - 1) * buckets < items
  }

  /** ideal_chain_maxlen, by a shift and a mask. */
  function Ideal(items: nat, lb: nat): nat {
    Shr(items, lb) + if And(items, Pow2(lb) - 1) != 0 then 1 else 0
  }

  /** It is ceil(items / 2^lb). */
  lemma IdealIsCeiling(items: nat, lb: nat)
    requires items > 0
    ensures IsCeiling(Ideal(items, lb), items, Pow2(lb))
  {
    Permute.AndMask(items, lb);
    ShiftAndLow(items, lb);
    RoundedUp(items, Shr(items, lb), Permute.Low(items, lb), Pow2(lb));
  }

  lemma RoundedUp(x: nat, q: nat, r: nat, b: nat)
    requires x > 0 && b > 0 && x == q * b + r && r < b
    ensures IsCeiling(q + if r != 0 then 1 else 0, x, b)
  {
    if r != 0 {
      assert (q + 1) * b == q * b + b;
    } else {
      assert (q - 1) * b == q * b - b;
    }
  }

  lemma {:induction false} ShiftAndLow(x: nat, n: nat)
    ensures x == Shr(x, n) * Pow2(n) + Permute.Low(x, n)
  {
    if n > 0 {
      ShiftAndLow(x / 2, n - 1);
      assert Shr(x, n) * Pow2(n) == 2 * (Shr(x / 2, n - 1) * Pow2(n - 1));
    }
  }

  // ---- the table ---------------------------------------------------------------------------------------

  class UtTable {
    /** The hash function of the table. */
    const hash: Key -> nat
    var head: Ptr
    var tail: Ptr
    var next: Links
    var prev: Links
    var hhNext: Links
    var hhPrev: Links
    var hashv: map<Ptr, nat>
    var key: map<Ptr, Key>
    var buckets: seq<Bucket>
    var log2: nat
    var numItems: nat
    var ideal: nat
    var nonideal: nat
    var ineffExpands: nat
    var noexpand: bool
    /** The items in application order, and the chain of each bucket. */
    ghost var L: seq<Ptr>
    ghost var chains: seq<seq<Ptr>>

    ghost predicate ChainsOk() reads this {
      InChains(hhNext, hhPrev, hashv, log2, buckets, chains, L)
    }

    ghost predicate KeysOk() reads this {
      forall x :: x in L ==> x in key && x in hashv && hashv[x] == hash(key[x])
    }

    /** What HASH_FSCK checks, and that each item is in the chain of its hash. */
    ghost predicate Valid() reads this {
      && (head == NULL <==> L == [])
      && (L != [] ==> Linked(next, prev, head, tail, L) && numItems == |L| && ChainsOk() && KeysOk())
    }

    constructor (h: Key -> nat)
      ensures Valid() && L == [] && hash == h
    {
      hash := h;
      head, tail, next, prev, hhNext, hhPrev := NULL, NULL, map[], map[], map[], map[];
      hashv, key, buckets, log2, numItems := map[], map[], [], 0, 0;
      ideal, nonideal, ineffExpands, noexpand := 0, 0, 0, false;
      L, chains := [], [];
    }

    /** One item goes from its old chain to the front of its new one. */
    method MoveItem(x: Ptr, nb: seq<Bucket>, ghost nchains: seq<seq<Ptr>>, ghost done: seq<Ptr>)
        returns (nb': seq<Bucket>, ghost nchains': seq<seq<Ptr>>, ghost y: Ptr)
      requires Rebuilt(hhNext, hhPrev, hashv, log2 + 1, nb, nchains, done, ideal, nonideal)
      requires x !in done && x != NULL && x in hashv
      modifies this`hhNext, this`hhPrev, this`nonideal
      ensures Rebuilt(hhNext, hhPrev, hashv, log2 + 1, nb', nchains', done + [x], ideal, nonideal)
      ensures hhNext == old(hhNext)[x := y]
    {
      MovedIsRebuilt(hhNext, hhPrev, hashv, log2 + 1, nb, nchains, done, ideal, nonideal, x);
      var j := BktOf(hashv[x], log2 + 1);
      var b := nb[j];
      var count, mult := b.count + 1, b.mult;
      if count > ideal {
        nonideal := nonideal + 1;
        mult := count / ideal;
      }
      y := b.head;
      hhNext := hhNext[x := b.head];
      if b.head != NULL {
        hhPrev := hhPrev[b.head := x];
      }
      hhPrev := hhPrev[x := NULL];
      nb' := nb[j := Bucket(x, count, mult)];
      nchains' := nchains[j := [x] + nchains[j]];
    }

    /** All items of one old chain are moved; hhNext is read before it is overwritten. */
    method MoveChain(i: nat, nb0: seq<Bucket>, ghost nchains0: seq<seq<Ptr>>, ghost done0: seq<Ptr>, ghost hn0: Links,
                     ghost hp0: Links)
        returns (nb: seq<Bucket>, ghost nchains: seq<seq<Ptr>>, ghost done: seq<Ptr>)
      requires InChains(hn0, hp0, hashv, log2, buckets, chains, L) && i < |buckets|
      requires ToMove(hhNext, chains, i, 0, done0) && forall x :: x in done0 ==> x in L
      requires Rebuilt(hhNext, hhPrev, hashv, log2 + 1, nb0, nchains0, done0, ideal, nonideal)
      modifies this`hhNext, this`hhPrev, this`nonideal
      ensures ToMove(hhNext, chains, i + 1, 0, done) && forall x :: x in done ==> x in L
      ensures Rebuilt(hhNext, hhPrev, hashv, log2 + 1, nb, nchains, done, ideal, nonideal)
    {
      nb, nchains, done := nb0, nchains0, done0;
      assert ChainOk(hn0, hp0, hashv, log2, buckets[i], chains[i], i);
      var thh := buckets[i].head;
      ghost var p: nat := 0;
      ghost var c := chains[i];
      while thh != NULL
        invariant p <= |c| && thh == At(c, p) && (thh == NULL ==> p == |c|)
        invariant ToMove(hhNext, chains, i, p, done) && forall x :: x in done ==> x in L
        invariant Rebuilt(hhNext, hhPrev, hashv, log2 + 1, nb, nchains, done, ideal, nonideal)
        decreases |c| - p
      {
        assert Remains(hhNext, chains[i], p, done) && c[p] in chains[i];
        var nxt := hhNext[thh];
        assert p + 1 < |c| ==> Remains(hhNext, chains[i], p + 1, done);
        ghost var before, y := hhNext, NULL;
        nb, nchains, y := MoveItem(thh, nb, nchains, done);
        MovedOn(before, hp0, hashv, log2, buckets, chains, L, hn0, i, p, done, y);
        done := done + [thh];
        p := p + 1;
        thh := nxt;
      }
      NextBucket(hhNext, chains, i, done);
    }

    // The loops of the expansion over the old buckets.
    method MoveAll(n: nat) returns (nb: seq<Bucket>, ghost nchains: seq<seq<Ptr>>)
      requires ChainsOk() && n == |buckets| && ideal > 0
      modifies this`hhNext, this`hhPrev, this`nonideal
      ensures Rebuilt(hhNext, hhPrev, hashv, log2 + 1, nb, nchains, L, ideal, nonideal)
    {
      ghost var hn0, hp0 := hhNext, hhPrev;
      nb := seq(2 * n, _ => Bucket(NULL, 0, 0));
      nonideal := 0;
      ghost var done: seq<Ptr> := [];
      nchains := seq(2 * n, _ => []);
      NoExcess(2 * n, ideal);
      AllToMove(hhNext, hhPrev, hashv, log2, buckets, chains, L);
      var i := 0;
      while i < n
        invariant 0 <= i <= n && ToMove(hhNext, chains, i, 0, done) && forall x :: x in done ==> x in L
        invariant Rebuilt(hhNext, hhPrev, hashv, log2 + 1, nb, nchains, done, ideal, nonideal)
      {
        nb, nchains, done := MoveChain(i, nb, nchains, done, hn0, hp0);
        i := i + 1;
      }
      AllMoved(hn0, hp0, hashv, log2, buckets, chains, L, hhNext, hhPrev, nb, nchains, done);
    }

    // The new buckets take the place of the old ones.
    method Rehash()
      requires Valid() && L != [] && ideal > 0
      modifies this`hhNext, this`hhPrev, this`nonideal, this`buckets, this`log2, this`chains
      ensures Valid() && log2 == old(log2) + 1 && nonideal == Excess(buckets, ideal)
      ensures forall j :: 0 <= j < |buckets| ==> MultOk(buckets[j], ideal)
    {
      var nb;
      ghost var nchains;
      nb, nchains := MoveAll(|buckets|);
      chains := nchains;
      log2 := log2 + 1;
      buckets := nb;
    }

    /** HASH_EXPAND_BUCKETS: the same items in twice as many buckets. */
    method Expand()
      requires Valid() && L != []
      modifies this`hhNext, this`hhPrev, this`nonideal, this`ideal, this`buckets, this`log2, this`ineffExpands,
               this`noexpand, this`chains
      ensures Valid() && log2 == old(log2) + 1 && |buckets| == 2 * old(|buckets|)
      ensures IsCeiling(ideal, numItems, |buckets|)
      ensures nonideal == Excess(buckets, ideal) && forall j :: 0 <= j < |buckets| ==> MultOk(buckets[j], ideal)
      ensures ineffExpands == if nonideal > numItems / 2 then old(ineffExpands) + 1 else 0
      ensures noexpand <==> old(noexpand) || ineffExpands > 1
    {
      IdealIsCeiling(numItems, log2 + 1);
      ideal := Ideal(numItems, log2 + 1);
      Rehash();
      Judge();
    }

    // Two expansions in a row that leave more than half of the items in too long chains are the last.
    method Judge()
      modifies this`ineffExpands, this`noexpand
      ensures ineffExpands == if nonideal > numItems / 2 then old(ineffExpands) + 1 else 0
      ensures noexpand <==> old(noexpand) || ineffExpands > 1
    {
      assert Shr(numItems, 1) == Shr(numItems / 2, 0);
      ineffExpands := if nonideal > Shr(numItems, 1) then ineffExpands + 1 else 0;
      if ineffExpands > 1 {
        noexpand := true;
      }
    }

    /** HASH_ADD_TO_BKT for a new item with its hash. */
    method AddToBucket(x: Ptr, ghost l: seq<Ptr>)
      requires InChains(hhNext, hhPrev, hashv, log2, buckets, chains, l) && x !in l && x != NULL && x in hashv
      requires L == l + [x]
      modifies this`hhNext, this`hhPrev, this`buckets, this`chains
      ensures ChainsOk() && |buckets| == old(|buckets|)
      ensures var b := old(buckets)[BktOf(hashv[x], log2)];
              buckets[BktOf(hashv[x], log2)] == Bucket(x, b.count + 1, b.mult)
    {
      var j := BktOf(hashv[x], log2);
      var b := buckets[j];
      PushChained(hhNext, hhPrev, hashv, log2, buckets, chains, l, x, L, b.mult);
      hhNext := hhNext[x := b.head];
      if b.head != NULL {
        hhPrev := hhPrev[b.head := x];
      }
      hhPrev := hhPrev[x := NULL];
      buckets := buckets[j := Bucket(x, b.count + 1, b.mult)];
      chains := chains[j := [x] + chains[j]];
    }

    /** HASH_ADD_KEYPTR: the item is the last in application order. */
    method Add(x: Ptr, k: Key)
      requires Valid() && x !in L && x != NULL
      modifies this
      ensures Valid() && L == old(L) + [x] && key == old(key)[x := k]
      ensures old(L) == [] ==> |buckets| == 32 && log2 == INITIAL_LOG2
      ensures old(L) != [] ==>
        var b := old(buckets)[BktOf(hash(k), old(log2))];
        |buckets| == if b.count + 1 >= (b.mult + 1) * THRESH && !old(noexpand) then 2 * old(|buckets|)
                     else old(|buckets|)
    {
      Enter(x, k);
      var b := buckets[BktOf(hashv[x], log2)];
      if b.count >= (b.mult + 1) * THRESH && !noexpand {
        Expand();
      }
    }

    // The item is linked in, without a look at the length of its chain.
    method Enter(x: Ptr, k: Key)
      requires Valid() && x !in L && x != NULL
      modifies this
      ensures Valid() && L == old(L) + [x] && key == old(key)[x := k] && x in hashv && hashv[x] == hash(k)
      ensures old(L) == [] ==> |buckets| == 32 && log2 == INITIAL_LOG2
      ensures old(L) == [] ==> buckets[BktOf(hash(k), log2)] == Bucket(x, 1, 0)
      ensures old(L) != [] ==>
        var j := BktOf(hash(k), old(log2));
        var b := old(buckets)[j];
        && log2 == old(log2) && noexpand == old(noexpand) && |buckets| == |old(buckets)|
        && buckets[j] == Bucket(x, b.count + 1, b.mult)
    {
      LinkLast(x);
      ghost var l := L;
      NewItem(x, k);
      AddToBucket(x, l);
      HeadOf(next, prev, head, tail, L);
    }

    method LinkLast(x: Ptr)
      requires Valid() && x !in L && x != NULL
      modifies this`head, this`tail, this`next, this`prev, this`buckets, this`log2, this`numItems, this`ideal,
               this`nonideal, this`ineffExpands, this`noexpand, this`chains
      ensures Linked(next, prev, head, tail, L + [x]) && ChainsOk() && numItems == |L|
      ensures if old(L) == [] then IsNew()
              else buckets == old(buckets) && log2 == old(log2) && noexpand == old(noexpand)
    {
      if head == NULL {
        head := x;
        prev := prev[x := NULL];
        MakeTable(x);
        next := next[x := NULL];
        assert L + [x] == [x];
        assert NextOk(next, [x], 0) && PrevOk(prev, [x], 0);
      } else {
        AppendLinks(next, prev, head, tail, L, x);
        next := next[x := NULL][tail := x];
        prev := prev[x := tail];
        tail := x;
      }
    }

    // The item is counted and its key and hash are set.
    method NewItem(x: Ptr, k: Key)
      requires ChainsOk() && x !in L && (L != [] ==> KeysOk())
      modifies this`numItems, this`hashv, this`key, this`L
      ensures L == old(L) + [x] && key == old(key)[x := k] && numItems == old(numItems) + 1
      ensures InChains(hhNext, hhPrev, hashv, log2, buckets, chains, old(L)) && KeysOk() && x in hashv
      ensures hashv[x] == hash(k)
    {
      ghost var l, hv := L, hashv;
      numItems := numItems + 1;
      key := key[x := k];
      hashv := hashv[x := hash(k)];
      HashStays(hhNext, hhPrev, hv, log2, buckets, chains, l, x, hash(k));
      L := L + [x];
    }

    /** A table as it is made for its first item. */
    ghost predicate IsNew() reads this {
      |buckets| == 32 && log2 == INITIAL_LOG2 && !noexpand
      && forall j :: 0 <= j < |buckets| ==> buckets[j] == Bucket(NULL, 0, 0)
    }

    method MakeTable(x: Ptr)
      requires L == []
      modifies this`tail, this`buckets, this`log2, this`numItems, this`ideal, this`nonideal, this`ineffExpands,
               this`noexpand, this`chains
      ensures tail == x && numItems == 0 && ChainsOk() && IsNew()
    {
      tail := x;
      numItems, ideal, nonideal, ineffExpands, noexpand := 0, 0, 0, 0, false;
      log2 := INITIAL_LOG2;
      assert Pow2(5) == 32;
      buckets := seq(32, _ => Bucket(NULL, 0, 0));
      chains := seq(32, _ => []);
    }

    /** HASH_DELETE; with the last item the table goes. */
    method Delete(x: Ptr, ghost p: nat)
      requires Valid() && p < |L| && L[p] == x
      modifies this`head, this`tail, this`next, this`prev, this`hhNext, this`hhPrev, this`buckets, this`numItems,
               this`L, this`chains
      ensures Valid() && L == Without(old(L), p)
    {
      Ends(next, prev, head, tail, L, p);
      if prev[x] == NULL && next[x] == NULL {
        head := NULL;
        L := Without(L, p);
      } else {
        DeleteOne(x, p);
      }
    }

    // One item of several is deleted.
    method DeleteOne(x: Ptr, ghost p: nat)
      requires Valid() && p < |L| && L[p] == x && |L| > 1
      modifies this`head, this`tail, this`next, this`prev, this`hhNext, this`hhPrev, this`buckets, this`numItems,
               this`L, this`chains
      ensures Valid() && L == Without(old(L), p)
    {
      DropMembers(L, p);
      ghost var l := Without(L, p);
      assert x in L;
      Unlink(x, p);
      DelInBucket(x, l);
      HeadOf(next, prev, head, tail, l);
      L := l;
      numItems := numItems - 1;
    }

    // The item is taken out of the application-order list.
    method Unlink(x: Ptr, ghost p: nat)
      requires Linked(next, prev, head, tail, L) && p < |L| && L[p] == x
      modifies this`head, this`tail, this`next, this`prev
      ensures Linked(next, prev, head, tail, Without(L, p))
    {
      UnlinkLinks(next, prev, head, tail, L, p);
      var a, b := prev[x], next[x];
      if tail == x {
        tail := a;
      }
      if a != NULL {
        next := next[a := b];
      } else {
        head := b;
      }
      if b != NULL {
        prev := prev[b := a];
      }
    }

    method DelInBucket(x: Ptr, ghost l: seq<Ptr>)
      requires ChainsOk() && x in L && x in hashv && forall y :: y in l <==> y in L && y != x
      modifies this`hhNext, this`hhPrev, this`buckets, this`chains
      ensures InChains(hhNext, hhPrev, hashv, log2, buckets, chains, l)
    {
      assert AtHome(hashv, log2, chains, x);
      var j := BktOf(hashv[x], log2);
      ghost var p :| 0 <= p < |chains[j]| && chains[j][p] == x;
      DropChained(hhNext, hhPrev, hashv, log2, buckets, chains, L, x, p, l);
      var a, b, bucket := hhPrev[x], hhNext[x], buckets[j];
      var first := bucket.head;
      if first == x {
        first := b;
      }
      if a != NULL {
        hhNext := hhNext[a := b];
      }
      if b != NULL {
        hhPrev := hhPrev[b := a];
      }
      buckets := buckets[j := Bucket(first, bucket.count - 1, bucket.mult)];
      chains := chains[j := Without(chains[j], p)];
    }

    /** HASH_FIND: the walk over one chain finds an item with this key if there is one. */
    method Find(k: Key) returns (out: Ptr)
      requires Valid()
      ensures out != NULL ==> out in L && out in key && key[out] == k
      ensures out == NULL ==> forall x :: x in L ==> x in key && key[x] != k
    {
      out := NULL;
      if head != NULL {
        var j := BktOf(hash(k), log2);
        ghost var c := chains[j];
        assert ChainOk(hhNext, hhPrev, hashv, log2, buckets[j], c, j);
        out := buckets[j].head;
        ghost var p: nat := 0;
        while out != NULL
          invariant p <= |c| && out == At(c, p) && (out == NULL ==> p == |c|)
          invariant forall i :: 0 <= i < p ==> c[i] in key && key[c[i]] != k
          decreases |c| - p
        {
          assert c[p] in c && NextOk(hhNext, c, p) && c[p] in chains[j];
          if key[out] == k {
            return;
          }
          out := hhNext[out];
          p := p + 1;
          assert p < |c| ==> c[p] in c;
        }
        forall x | x in L ensures x in key && key[x] != k { assert AtHome(hashv, log2, chains, x); }
      }
    }

    // ---- HASH_SRT --------------------------------------------------------------------------------------

    // The merge loop takes the items of two runs; pi and qi are where it stands in them.
    ghost predicate Merging(l: seq<Ptr>, o: seq<Ptr>, list: Ptr, last: Ptr, pi: nat, mid: nat, qi: nat)
      reads this
    {
      && Built(next, prev, list, last, o) && pi <= mid <= qi <= |l| && Distinct(l) && NULL !in l
      && Waiting(next, l, pi, mid, o) && Waiting(next, l, qi, |l|, o)
      && (last != NULL ==> last in next)
    }

    /** Puts item e, the next of one of the runs, at the end of the new list. */
    method Append(e: Ptr, list: Ptr, last: Ptr, ghost l: seq<Ptr>, ghost o: seq<Ptr>, ghost pi: nat, ghost mid: nat,
                  ghost qi: nat, ghost fromP: bool) returns (list': Ptr, last': Ptr)
      requires Merging(l, o, list, last, pi, mid, qi)
      requires if fromP then pi < mid && e == l[pi] else qi < |l| && e == l[qi]
      modifies this`next, this`prev
      ensures Merging(l, o + [e], list', last', if fromP then pi + 1 else pi, mid, if fromP then qi else qi + 1)
    {
      assert fromP ==> Waits(next, l, pi, o);
      assert !fromP ==> Waits(next, l, qi, o);
      assert e in l && (last != NULL ==> last in o);
      AppendBuilds(next, prev, list, last, o, e);
      AppendWaits(next, last, e, l, if fromP then pi + 1 else pi, mid, o);
      AppendWaits(next, last, e, l, if fromP then qi else qi + 1, |l|, o);
      list' := list;
      if last != NULL {
        next := next[last := e];
      } else {
        list' := e;
      }
      prev := prev[e := last];
      last' := e;
    }

    /** Skips a run of size items from p; q is where the next run starts. */
    method SkipRun(p: Ptr, size: nat, ghost l: seq<Ptr>, ghost pi: nat, ghost o: seq<Ptr>) returns (q: Ptr, psize: nat)
      requires size > 0 && pi < |l| && p == l[pi] && NULL !in l && Waiting(next, l, pi, |l|, o)
      ensures psize == Min(size, |l| - pi) && q == At(l, pi + psize)
    {
      q := p;
      psize := 0;
      var i := 0;
      while i < size
        invariant i == psize <= size && pi + i < |l| && q == l[pi + i]
      {
        psize := psize + 1;
        assert Waits(next, l, pi + i, o);
        q := next[q];
        assert pi + psize < |l| ==> l[pi + psize] in l;
        if q == NULL {
          break;
        }
        assert pi + psize < |l|;
        i := i + 1;
      }
    }

    // The merge loop stands at positions pi and qi of the two runs, which end at mid and n.
    ghost predicate InRuns(l: seq<Ptr>, p: Ptr, psize: nat, q: Ptr, qsize: nat, pi: nat, mid: nat, qi: nat, n: nat) {
      && pi <= mid <= qi <= n <= |l| && psize == mid - pi && (psize > 0 ==> p == l[pi]) && q == At(l, qi)
      && n == Min(qi + qsize, |l|)
    }

    /** The first item of one of the runs is taken: of the first run unless that of the second is less. */
    method Take(le: Le, p: Ptr, psize: nat, q: Ptr, qsize: nat, ghost l: seq<Ptr>, ghost o: seq<Ptr>,
                ghost pi: nat, ghost mid: nat, ghost qi: nat, ghost n: nat)
        returns (e: Ptr, p': Ptr, psize': nat, q': Ptr, qsize': nat, ghost fromP: bool)
      requires InRuns(l, p, psize, q, qsize, pi, mid, qi, n) && NULL !in l
      requires psize > 0 || (qsize > 0 && q != NULL)
      requires Waiting(next, l, pi, mid, o) && Waiting(next, l, qi, |l|, o)
      ensures pi < mid || qi < n
      ensures fromP == !(pi == mid || (qi < n && !le(l[pi], l[qi])))
      ensures e == if fromP then l[pi] else l[qi]
      ensures InRuns(l, p', psize', q', qsize', if fromP then pi + 1 else pi, mid, if fromP then qi else qi + 1, n)
    {
      assert qi < |l| ==> l[qi] in l && Waits(next, l, qi, o);
      assert pi < mid ==> Waits(next, l, pi, o);
      p', psize', q', qsize' := p, psize, q, qsize;
      if psize == 0 {
        e, fromP := q, false;
        q' := next[q];
        qsize' := qsize - 1;
      } else if qsize == 0 || q == NULL {
        e, fromP := p, true;
        p' := next[p];
        psize' := psize - 1;
      } else if le(p, q) {
        e, fromP := p, true;
        p' := next[p];
        psize' := psize - 1;
      } else {
        e, fromP := q, false;
        q' := next[q];
        qsize' := qsize - 1;
      }
    }

    /** The merge of the run from p (psize items) with the run from q (at most qsize items). */
    method MergeRuns(le: Le, p0: Ptr, psize0: nat, q0: Ptr, qsize0: nat, list0: Ptr, last0: Ptr,
                     ghost l: seq<Ptr>, ghost o: seq<Ptr>, ghost pi0: nat, ghost mid: nat)
        returns (q: Ptr, list: Ptr, last: Ptr)
      requires Merging(l, o, list0, last0, pi0, mid, mid) && psize0 == mid - pi0 && (psize0 > 0 ==> p0 == l[pi0])
               && q0 == At(l, mid)
      modifies this`next, this`prev
      ensures var n := Min(mid + qsize0, |l|);
              && q == At(l, n)
              && Merging(l, o + Merge(le, l[pi0..mid], l[mid..n]), list, last, n, n, n)
    {
      var p, psize, qsize := p0, psize0, qsize0;
      q, list, last := q0, list0, last0;
      ghost var n := Min(mid + qsize0, |l|);
      ghost var pi: nat, qi: nat, done := pi0, mid, o;
      ghost var whole := o + Merge(le, l[pi0..mid], l[mid..n]);
      while psize > 0 || (qsize > 0 && q != NULL)
        invariant InRuns(l, p, psize, q, qsize, pi, mid, qi, n) && Merging(l, done, list, last, pi, mid, qi)
        invariant done + Merge(le, l[pi..mid], l[qi..n]) == whole
        decreases (mid - pi) + (n - qi)
      {
        var e;
        ghost var fromP;
        e, p, psize, q, qsize, fromP := Take(le, p, psize, q, qsize, l, done, pi, mid, qi, n);
        MergeTakes(le, l, pi, mid, qi, n, fromP, done, whole);
        list, last := Append(e, list, last, l, done, pi, mid, qi, fromP);
        done := done + [e];
        pi, qi := if fromP then pi + 1 else pi, if fromP then qi else qi + 1;
      }
      AtEnd(l, p, psize, q, qsize, pi, mid, qi, n);
      assert Merge(le, l[pi..mid], l[qi..n]) == [] && done == whole;
    }

    lemma AtEnd(l: seq<Ptr>, p: Ptr, psize: nat, q: Ptr, qsize: nat, pi: nat, mid: nat, qi: nat, n: nat)
      requires InRuns(l, p, psize, q, qsize, pi, mid, qi, n) && NULL !in l && psize == 0 && (qsize == 0 || q == NULL)
      ensures pi == mid && qi == n
    {
      if qi < |l| {
        assert l[qi] in l;
      }
    }

    // Between two merges of a pass: o is built, the rest of l from position k on waits, and merges were made.
    ghost predicate Passing(le: Le, l: seq<Ptr>, size: nat, k: nat, o: seq<Ptr>, p: Ptr, list: Ptr, last: Ptr,
                            merges: nat)
      requires size > 0
      reads this
    {
      && OnTheWay(le, l, k, size, o) && p == At(l, k) && (p == NULL ==> k == |l|) && Merging(l, o, list, last, k, k, k)
      && Counted(l, size, k, merges)
    }

    /** The next two runs, from p on, are found and merged; p' is where the third starts. */
    method MergePair(le: Le, p: Ptr, size: nat, list: Ptr, last: Ptr, merges: nat, ghost l: seq<Ptr>,
                     ghost o: seq<Ptr>, ghost k: nat)
        returns (p': Ptr, list': Ptr, last': Ptr, ghost o': seq<Ptr>, ghost k': nat)
      requires size > 0 && k < |l| && Passing(le, l, size, k, o, p, list, last, merges)
      modifies this`next, this`prev
      ensures Passing(le, l, size, k', o', p', list', last', merges + 1) && k' > k
    {
      PassGrows(le, l, k, size, o);
      var q, psize := SkipRun(p, size, l, k, o);
      ghost var mid := Mid(l, k, size);
      assert mid == k + psize;
      MergingRuns(l, o, list, last, k, mid);
      p', list', last' := MergeRuns(le, p, psize, q, size, list, last, l, o, k, mid);
      o', k' := o + Merged(le, l, k, size), End(l, k, size);
      CountsOn(l, size, k, merges);
      assert k' < |l| ==> l[k'] in l;
    }

    lemma MergingRuns(l: seq<Ptr>, o: seq<Ptr>, list: Ptr, last: Ptr, k: nat, mid: nat)
      requires Merging(l, o, list, last, k, k, k) && k <= mid <= |l|
      ensures Merging(l, o, list, last, k, mid, mid)
    {
    }

    lemma PassBegins(le: Le, p: Ptr, size: nat, l: seq<Ptr>)
      requires size > 0 && Unsorted(next, p, l)
      ensures Passing(le, l, size, 0, [], p, NULL, NULL, 0)
    {
      assert l[0..] == l && l[0] in l;
    }

    lemma PassEnds(le: Le, l: seq<Ptr>, size: nat, k: nat, o: seq<Ptr>, list: Ptr, last: Ptr, merges: nat)
      requires size > 0 && |l| > 0 && Passing(le, l, size, k, o, NULL, list, last, merges)
      ensures Built(next, prev, list, last, Pass(le, l, size)) && last in next
      ensures merges <= 1 <==> |l| <= 2 * size
    {
      assert l[|l|..] == [] && o == Pass(le, l, size);
    }

    /** One pass over the list; merges counts its merges. */
    method OnePass(le: Le, p0: Ptr, size: nat, ghost l: seq<Ptr>) returns (list: Ptr, last: Ptr, merges: nat)
      requires size > 0 && Unsorted(next, p0, l)
      modifies this`next, this`prev
      ensures Built(next, prev, list, last, Pass(le, l, size)) && last in next
      ensures merges <= 1 <==> |l| <= 2 * size
    {
      var p := p0;
      list, last, merges := NULL, NULL, 0;
      ghost var k: nat, o: seq<Ptr> := 0, [];
      PassBegins(le, p, size, l);
      while p != NULL
        invariant Passing(le, l, size, k, o, p, list, last, merges)
        decreases |l| - k
      {
        p, list, last, o, k := MergePair(le, p, size, list, last, merges, l, o, k);
        merges := merges + 1;
      }
      PassEnds(le, l, size, k, o, list, last, merges);
    }

    /** The passes of HASH_SRT over the links; head and tail as the new order says. */
    method SortLinks(le: Le, ghost l0: seq<Ptr>)
      requires Linked(next, prev, head, tail, l0) && Preorder(le)
      modifies this`head, this`tail, this`next, this`prev
      ensures Linked(next, prev, head, tail, Passes(le, l0, 1)) && StableSorted(le, l0, Passes(le, l0, 1))
    {
      SortIsStable(le, l0);
      assert |l0| > 0 ==> l0[0] in l0;
      if head == NULL {
        return;
      }
      var size, list, looping := 1, head, true;
      ghost var l := l0;
      StartsWaiting(next, prev, head, tail, l0);
      while looping
        invariant size > 0 && |l| > 0
        invariant looping ==> Unsorted(next, list, l) && Passes(le, l, size) == Passes(le, l0, 1)
        invariant !looping ==> l == Passes(le, l0, 1) && Linked(next, prev, head, tail, l)
        decreases looping, if |l| > size then |l| - size else 0
      {
        var last, merges;
        ghost var pass := Pass(le, l, size);
        PassesStep(le, l, size);
        list, last, merges := OnePass(le, list, size, l);
        BuiltIsLinked(next, prev, list, last, pass);
        next := next[last := NULL];
        if merges <= 1 {
          looping := false;
          tail := last;
          head := list;
        } else {
          StartsWaiting(next, prev, list, last, pass);
        }
        l := pass;
        size := 2 * size;
      }
    }

    /** HASH_SRT: the application order becomes that of the comparison, stably; the buckets stay as they are. */
    method Sort(le: Le)
      requires Valid() && Preorder(le)
      modifies this`head, this`tail, this`next, this`prev, this`L
      ensures Valid() && L == Passes(le, old(L), 1) && StableSorted(le, old(L), L)
    {
      if head == NULL {
        SortIsStable(le, L);
        return;
      }
      SortLinks(le, L);
      ghost var l := L;
      L := Passes(le, L, 1);
      SortedIsInChains(hhNext, hhPrev, hashv, log2, buckets, chains, l, L);
      HeadOf(next, prev, head, tail, L);
    }
  }

  // The chains are those of the same items, in whatever order.
  lemma SortedIsInChains(hn: Links, hp: Links, hashv: map<Ptr, nat>, log2: nat, bs: seq<Bucket>, chains: seq<seq<Ptr>>,
                         l: seq<Ptr>, r: seq<Ptr>)
    requires InChains(hn, hp, hashv, log2, bs, chains, l) && multiset(r) == multiset(l)
    ensures InChains(hn, hp, hashv, log2, bs, chains, r) && |r| == |l| && forall x :: x in r <==> x in l
  {
    forall x ensures x in r <==> x in l { assert x in multiset(r) <==> x in multiset(l); }
    assert |multiset(r)| == |r| && |multiset(l)| == |l|;
  }

  // The hash of an item that is in no chain does not matter.
  lemma HashStays(hn: Links, hp: Links, hashv: map<Ptr, nat>, log2: nat, bs: seq<Bucket>, chains: seq<seq<Ptr>>,
                  l: seq<Ptr>, x: Ptr, h: nat)
    requires InChains(hn, hp, hashv, log2, bs, chains, l) && x !in l
    ensures InChains(hn, hp, hashv[x := h], log2, bs, chains, l)
  {
    var hashv' := hashv[x := h];
    forall i | 0 <= i < |bs| ensures ChainOk(hn, hp, hashv', log2, bs[i], chains[i], i) {
      assert ChainOk(hn, hp, hashv, log2, bs[i], chains[i], i);
      assert forall y :: y in chains[i] ==> y in l;
    }
    forall y | y in l ensures AtHome(hashv', log2, chains, y) { assert AtHome(hashv, log2, chains, y); }
  }

  // An item without neighbours is the only one.
  lemma Ends(next: Links, prev: Links, head: Ptr, tail: Ptr, l: seq<Ptr>, p: nat)
    requires Linked(next, prev, head, tail, l) && p < |l|
    ensures l[p] in next && l[p] in prev && l[p] in l && head != NULL
    ensures prev[l[p]] == NULL && next[l[p]] == NULL <==> |l| == 1
  {
    assert NextOk(next, l, p) && PrevOk(prev, l, p) && l[0] in l;
    assert p > 0 ==> l[p - 1] in l;
    assert p + 1 < |l| ==> l[p + 1] in l;
  }

  lemma HeadOf(next: Links, prev: Links, head: Ptr, tail: Ptr, l: seq<Ptr>)
    requires Linked(next, prev, head, tail, l)
    ensures head == NULL <==> l == []
  {
    assert |l| > 0 ==> l[0] in l;
  }
}
