/** The sorted and unsorted iterators of lib/hat-trie/src/ahtable.c, over the packed slots of a table. */
module AhIter {
  import opened AhTable
  import opened Basics
  import opened ByteOrder
  import opened SlotBytes

  // ---- pointers to packed entries --------------------------------------------------------------------

  /** Pointer p, a slot and a position in it, leads to entry e. */
  ghost predicate PointsTo(slots: seq<Bytes>, p: Iter, e: Entry) {
    p.i < |slots| && e.Ok() && EntryAt(slots[p.i], p.s, e)
  }

  ghost predicate PointToAll(slots: seq<Bytes>, ps: seq<Iter>, es: seq<Entry>) {
    |ps| == |es| && forall i {:trigger PointsTo(slots, ps[i], es[i])} :: 0 <= i < |ps| ==> PointsTo(slots, ps[i], es[i])
  }

  /** cmpkey, which reads both keys through their pointers. */
  method CmpThrough(slots: seq<Bytes>, x: Iter, y: Iter, ghost e: Entry, ghost f: Entry) returns (c: int)
    requires PointsTo(slots, x, e) && PointsTo(slots, y, f)
    ensures c == CmpKey(e.key, f.key)
  {
    var a, b := slots[x.i][x.s..], slots[y.i][y.s..];
    var ka, kb := KeyLen(a), KeyLen(b);
    KeyBehind(slots[x.i], x.s, e);
    KeyBehind(slots[y.i], y.s, f);
    a := a[if ka < 128 then 1 else 2..];
    b := b[if kb < 128 then 1 else 2..];
    var n := if ka < kb then ka else kb;
    assert a[..n] == a[..ka][..n] && b[..n] == b[..kb][..n];
    MemCmpLocal(a, b, e.key, f.key, n);
    c := MemCmp(a, b, n);
    c := if c == 0 then ka - kb else c;
  }

  lemma KeyBehind(slot: Bytes, s: nat, e: Entry)
    requires EntryAt(slot, s, e)
    ensures var n, k := LengthSize(|e.key|), |e.key|;
            n + k <= |slot[s..]| && slot[s..][n..][..k] == e.key && KeyLen(slot[s..]) == k
  {
    var n, k := LengthSize(|e.key|), |e.key|;
    assert slot[s..][n..] == slot[s + n..] && slot[s + n..][..k] == slot[s + n..s + n + k];
  }

  // ---- qsort -----------------------------------------------------------------------------------------------

  ghost predicate InOrder(es: seq<Entry>) {
    forall i, j :: 0 <= i < j < |es| ==> CmpKey(es[i].key, es[j].key) <= 0
  }

  lemma CmpTransitive(a: Bytes, b: Bytes, c: Bytes)
    requires CmpKey(a, b) <= 0 && CmpKey(b, c) <= 0
    ensures CmpKey(a, c) <= 0
  {
    CmpKeyIsByteOrder(a, b);
    CmpKeyIsByteOrder(b, c);
    CmpKeyIsByteOrder(a, c);
    if Less(a, b) && Less(b, c) {
      LessIsTransitive(a, b, c);
    }
  }

  method PlaceFor(slots: seq<Bytes>, ys: seq<Iter>, ghost fs: seq<Entry>, x: Iter, ghost e: Entry) returns (k: nat)
    requires PointToAll(slots, ys, fs) && PointsTo(slots, x, e)
    ensures k <= |fs| && (forall i :: 0 <= i < k ==> CmpKey(fs[i].key, e.key) <= 0)
            && (k < |fs| ==> CmpKey(fs[k].key, e.key) > 0)
  {
    k := 0;
    while k < |ys|
      invariant 0 <= k <= |ys| && forall i :: 0 <= i < k ==> CmpKey(fs[i].key, e.key) <= 0
    {
      assert PointsTo(slots, ys[k], fs[k]);
      var c := CmpThrough(slots, ys[k], x, fs[k], e);
      if c > 0 {
        return;
      }
      k := k + 1;
    }
  }

  method InsertInOrder(slots: seq<Bytes>, ys: seq<Iter>, ghost fs: seq<Entry>, x: Iter, ghost e: Entry)
      returns (zs: seq<Iter>, ghost gs: seq<Entry>)
    requires PointToAll(slots, ys, fs) && InOrder(fs) && PointsTo(slots, x, e)
    ensures PointToAll(slots, zs, gs) && InOrder(gs) && multiset(gs) == multiset(fs) + multiset{e}
  {
    var k := PlaceFor(slots, ys, fs, x, e);
    zs, gs := ys[..k] + [x] + ys[k..], fs[..k] + [e] + fs[k..];
    InsertedInOrder(fs, k, e);
    InsertedPoints(slots, ys, fs, k, x, e);
  }

  lemma InsertedPoints(slots: seq<Bytes>, ys: seq<Iter>, fs: seq<Entry>, k: nat, x: Iter, e: Entry)
    requires PointToAll(slots, ys, fs) && k <= |ys| && PointsTo(slots, x, e)
    ensures PointToAll(slots, ys[..k] + [x] + ys[k..], fs[..k] + [e] + fs[k..])
    ensures multiset(fs[..k] + [e] + fs[k..]) == multiset(fs) + multiset{e}
  {
    var zs, gs := ys[..k] + [x] + ys[k..], fs[..k] + [e] + fs[k..];
    forall i | 0 <= i < |zs| ensures PointsTo(slots, zs[i], gs[i]) {
      if i < k {
        assert PointsTo(slots, ys[i], fs[i]);
      } else if i > k {
        assert PointsTo(slots, ys[i - 1], fs[i - 1]);
      }
    }
    assert fs == fs[..k] + fs[k..];
  }

  lemma InsertedInOrder(fs: seq<Entry>, k: nat, e: Entry)
    requires InOrder(fs) && k <= |fs| && (forall i :: 0 <= i < k ==> CmpKey(fs[i].key, e.key) <= 0)
    requires k < |fs| ==> CmpKey(fs[k].key, e.key) > 0
    ensures InOrder(fs[..k] + [e] + fs[k..])
  {
    forall j | k <= j < |fs| ensures CmpKey(e.key, fs[j].key) <= 0 {
      CmpKeyIsByteOrder(fs[k].key, e.key);
      CmpKeyIsByteOrder(e.key, fs[k].key);
      if j > k {
        CmpTransitive(e.key, fs[k].key, fs[j].key);
      }
    }
  }

  /** qsort of the pointers by cmpkey: all that is used of it is that it sorts and permutes. */
  method QSort(slots: seq<Bytes>, xs: seq<Iter>, ghost es: seq<Entry>) returns (ys: seq<Iter>, ghost fs: seq<Entry>)
    requires PointToAll(slots, xs, es)
    ensures PointToAll(slots, ys, fs) && InOrder(fs) && multiset(fs) == multiset(es)
  {
    ys, fs := [], [];
    var i := 0;
    while i < |xs|
      invariant 0 <= i <= |xs| && PointToAll(slots, ys, fs) && InOrder(fs) && multiset(fs) == multiset(es[..i])
    {
      assert PointsTo(slots, xs[i], es[i]);
      ys, fs := InsertInOrder(slots, ys, fs, xs[i], es[i]);
      assert es[..i + 1] == es[..i] + [es[i]];
      i := i + 1;
    }
    assert es[..i] == es;
  }

  // ---- the entries in the order of iteration ---------------------------------------------------------------

  /** ahtable_sorted_iter_begin: a pointer to each entry, slot by slot; there is room for m pointers. */
  method Collect(slots: seq<Bytes>, m: nat, ghost lists: seq<seq<Entry>>) returns (xs: seq<Iter>)
    requires Packed(slots, lists) && |Flat(lists)| == m
    ensures PointToAll(slots, xs, Flat(lists))
  {
    xs := [];
    ghost var es := [];
    var j := 0;
    assert lists[..0] == [] && (|lists| > 0 ==> lists[0][..0] == []);
    while j < |slots|
      invariant 0 <= j <= |slots| && es == Passed(lists, j, 0) && PointToAll(slots, xs, es)
    {
      xs, es := CollectSlot(slots, j, m, xs, lists, es);
      j := j + 1;
    }
    AllPassed(lists);
  }

  method CollectSlot(slots: seq<Bytes>, j: nat, m: nat, xs0: seq<Iter>, ghost lists: seq<seq<Entry>>,
                     ghost es0: seq<Entry>)
      returns (xs: seq<Iter>, ghost es: seq<Entry>)
    requires Packed(slots, lists) && j < |slots| && |Flat(lists)| == m
    requires es0 == Passed(lists, j, 0) && PointToAll(slots, xs0, es0)
    ensures es == Passed(lists, j + 1, 0) && PointToAll(slots, xs, es)
  {
    var s := 0;
    ghost var k := 0;
    xs, es := xs0, es0;
    ghost var l := lists[j];
    assert SlotIs(slots, lists, j);
    while s < |slots[j]|
      invariant k <= |l| && s == Offset(l, k) && es == Passed(lists, j, k) && PointToAll(slots, xs, es)
      decreases |l| - k
    {
      WalkOn(l, k);
      PassedOn(lists, j, k);
      NotAllPassed(lists, j, k);
      assert |xs| < m && PointsTo(slots, Iter(j, s), l[k]);
      xs, es := xs + [Iter(j, s)], es + [l[k]];
      var len := KeyLen(slots[j][s..]);
      s := s + if len < 128 then 1 else 2;
      s := s + len + VALUE_SIZE;
      k := k + 1;
    }
    WalkOn(l, k);
    PassedOn(lists, j, k);
  }

  lemma NotAllPassed(lists: seq<seq<Entry>>, i: nat, j: nat)
    requires i < |lists| && j < |lists[i]|
    ensures |Passed(lists, i, j)| < |Flat(lists)|
  {
    FlatBegins(lists, i + 1);
    assert lists[..i + 1][..i] == lists[..i];
  }

  function KeysOf(es: seq<Entry>): (r: seq<Bytes>)
    ensures |r| == |es| && forall i :: 0 <= i < |es| ==> r[i] == es[i].key
  {
    seq(|es|, i requires 0 <= i < |es| => es[i].key)
  }

  /**
    The entries that ahtable_iter_begin, _key, _val and _next give one after the other: those that the walk
    over the packed slots finds, sorted by cmpkey if asked for.
   */
  method EntriesOf(hash: Hash, slots: seq<Bytes>, m: nat, sorted: bool, ghost lists: seq<seq<Entry>>, ghost M: Map)
      returns (es: seq<Entry>)
    requires Stores(hash, lists, M) && Packed(slots, lists) && m == |M|
    ensures multiset(es) == multiset(Flat(lists)) && if sorted then InOrder(es) else es == Flat(lists)
    ensures Listing(KeysOf(es), M.Keys, sorted)
    ensures forall e :: e in es ==> e.Ok() && e.key in M && e.value == M[e.key]
  {
    SpreadStores(hash, lists, M, |lists|);
    if sorted {
      var xs := Collect(slots, m, lists);
      ghost var fs;
      xs, fs := QSort(slots, xs, Flat(lists));
      es := ReadAll(slots, xs, fs);
    } else {
      es := WalkAll(slots, lists);
    }
    IsListing(hash, lists, M, es, sorted);
  }

  method ReadAll(slots: seq<Bytes>, xs: seq<Iter>, ghost fs: seq<Entry>) returns (es: seq<Entry>)
    requires PointToAll(slots, xs, fs)
    ensures es == fs
  {
    es := [];
    var i := 0;
    while i < |xs|
      invariant 0 <= i <= |xs| && es == fs[..i]
    {
      assert PointsTo(slots, xs[i], fs[i]);
      var e := ReadEntry(slots[xs[i].i], xs[i].s, fs[i]);
      es := es + [e];
      i := i + 1;
    }
  }

  method WalkAll(slots: seq<Bytes>, ghost lists: seq<seq<Entry>>) returns (es: seq<Entry>)
    requires Packed(slots, lists)
    ensures es == Flat(lists)
  {
    es := [];
    var it, j := Begin(slots, lists);
    while it.i < |slots|
      invariant IterAt(lists, it, j) && es == Passed(lists, it.i, j)
      decreases |slots| - it.i, if it.i < |slots| then |lists[it.i]| - j else 0
    {
      var e;
      e, it, j := NextEntry(slots, it, lists, j);
      es := es + [e];
    }
    AllPassed(lists);
  }

  lemma {:induction false} OnceOnly(es: seq<Entry>, e: Entry)
    requires DistinctKeys(es)
    ensures multiset(es)[e] <= 1
  {
    if |es| > 0 {
      var k := |es| - 1;
      assert es == es[..k] + [es[k]];
      OnceOnly(es[..k], e);
      if e == es[k] {
        assert e !in es[..k];
      }
    }
  }

  lemma PermutedDistinct(es: seq<Entry>, fs: seq<Entry>, m: Map)
    requires DistinctKeys(es) && multiset(es) == multiset(fs) && forall e :: e in es ==>
             e.key in m && m[e.key] == e.value
    ensures DistinctKeys(fs)
  {
    forall i, j | 0 <= i < j < |fs| ensures fs[i].key != fs[j].key {
      assert fs[i] in multiset(es) && fs[j] in multiset(es);
      OnceOnly(es, fs[i]);
      assert fs == fs[..j] + [fs[j]] + fs[j + 1..] && fs[i] in fs[..j];
    }
  }

  /** The entries found in the slots are those of the map; cmpkey puts different keys into strictly increasing order. */
  lemma IsListing(hash: Hash, lists: seq<seq<Entry>>, m: Map, es: seq<Entry>, sorted: bool)
    requires Stores(hash, lists, m) && multiset(es) == multiset(Flat(lists)) && (sorted ==> InOrder(es))
    ensures Listing(KeysOf(es), m.Keys, sorted)
    ensures forall e :: e in es ==> e.Ok() && e.key in m && e.value == m[e.key]
  {
    var all, ks := Flat(lists), KeysOf(es);
    assert lists[..|lists|] == lists;
    FlatDistinct(hash, lists, |lists|, m, |lists|);
    FlatIsMap(hash, lists, m);
    PermutedDistinct(all, es, m);
    forall e ensures e in es <==> e in all { assert e in multiset(es) <==> e in multiset(all); }
    forall k | k in m ensures k in ks {
      assert Entry(k, m[k]) in es;
      var i :| 0 <= i < |es| && es[i] == Entry(k, m[k]);
      assert ks[i] == k;
    }
    forall k | k in ks ensures k in m {
      var i :| 0 <= i < |es| && ks[i] == k;
      assert es[i] in es;
    }
    if sorted {
      forall i, j | 0 <= i < j < |ks| ensures Less(ks[i], ks[j]) { CmpKeyIsByteOrder(es[i].key, es[j].key); }
    }
  }
}
