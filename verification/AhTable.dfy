/** The hash table of lib/hat-trie/src/ahtable.c on its packed slots. */
module AhTable {
  import opened Basics
  import opened SlotBytes

  /** The number of slots of a new table, and how many entries for each slot a table may have. */
  const INITIAL_SIZE := 4096
  const MAX_LOAD := 100000

  type Map = map<Bytes, Bytes>
  type Hash = Bytes -> nat

  /** The slot of a key. */
  function SlotOf(hash: Hash, key: Bytes, n: nat): nat
    requires n > 0
  {
    hash(key) % n
  }

  predicate DistinctKeys(es: seq<Entry>) {
    forall i, j :: 0 <= i < j < |es| ==> es[i].key != es[j].key
  }

  predicate HasKey(es: seq<Entry>, key: Bytes) {
    exists j :: 0 <= j < |es| && es[j].key == key
  }

  /** Entry e says what m says, and lies in slot i. */
  ghost predicate EntryOk(hash: Hash, n: nat, m: Map, i: nat, e: Entry)
    requires n > 0
  {
    e.Ok() && e.key in m && m[e.key] == e.value && SlotOf(hash, e.key, n) == i
  }

  ghost predicate ListOk(hash: Hash, n: nat, m: Map, i: nat, es: seq<Entry>)
    requires n > 0
  {
    DistinctKeys(es) && forall j {:trigger EntryOk(hash, n, m, i, es[j])} :: 0 <= j < |es| ==>
        EntryOk(hash, n, m, i, es[j])
  }

  ghost predicate KeyOk(hash: Hash, m: Map, lists: seq<seq<Entry>>, key: Bytes)
    requires |lists| > 0
  {
    HasKey(lists[SlotOf(hash, key, |lists|)], key)
  }

  /** The lists, one for each slot, store exactly the map m. */
  ghost predicate Stores(hash: Hash, lists: seq<seq<Entry>>, m: Map) {
    && |lists| > 0
    && (forall i {:trigger ListOk(hash, |lists|, m, i, lists[i])} :: 0 <= i < |lists| ==>
       ListOk(hash, |lists|, m, i, lists[i]))
    && (forall key {:trigger KeyOk(hash, m, lists, key)} :: key in m ==> KeyOk(hash, m, lists, key))
  }

  /** Each slot holds its list, packed. */
  ghost predicate Packed(slots: seq<Bytes>, lists: seq<seq<Entry>>) {
    |slots| == |lists| && forall i {:trigger SlotIs(slots, lists, i)} :: 0 <= i < |slots| ==> SlotIs(slots, lists, i)
  }

  ghost predicate SlotIs(slots: seq<Bytes>, lists: seq<seq<Entry>>, i: nat)
    requires i < |slots| && i < |lists|
  {
    AllOk(lists[i]) && slots[i] == PackAll(lists[i])
  }

  // ---- changes of one list ---------------------------------------------------------------------------

  lemma OneListChanges(hash: Hash, lists: seq<seq<Entry>>, m: Map, m': Map, i: nat, es: seq<Entry>, key: Bytes)
    requires Stores(hash, lists, m) && i < |lists| && ListOk(hash, |lists|, m', i, es)
             && i == SlotOf(hash, key, |lists|)
    requires forall k :: k != key ==> (k in m <==> k in m') && (k in m ==> m[k] == m'[k])
    requires forall k :: k != key && HasKey(lists[i], k) ==> HasKey(es, k)
    requires key in m' ==> HasKey(es, key)
    ensures Stores(hash, lists[i := es], m')
  {
    var lists' := lists[i := es];
    forall x | 0 <= x < |lists'| ensures ListOk(hash, |lists'|, m', x, lists'[x]) {
      if x != i {
        assert ListOk(hash, |lists|, m, x, lists[x]);
        forall j | 0 <= j < |lists[x]| ensures EntryOk(hash, |lists|, m', x, lists[x][j]) {
          assert EntryOk(hash, |lists|, m, x, lists[x][j]);
        }
      }
    }
    forall k | k in m' ensures KeyOk(hash, m', lists', k) {
      assert k != key ==> KeyOk(hash, m, lists, k);
    }
  }

  lemma Inserted(hash: Hash, lists: seq<seq<Entry>>, m: Map, i: nat, e: Entry)
    requires Stores(hash, lists, m) && e.Ok() && e.key !in m && i == SlotOf(hash, e.key, |lists|)
    ensures Stores(hash, lists[i := lists[i] + [e]], m[e.key := e.value])
  {
    var m', es := m[e.key := e.value], lists[i] + [e];
    assert ListOk(hash, |lists|, m, i, lists[i]);
    forall j | 0 <= j < |es| ensures EntryOk(hash, |lists|, m', i, es[j]) && (j < |es| - 1 ==> es[j].key != e.key) {
      assert j < |es| - 1 ==> EntryOk(hash, |lists|, m, i, lists[i][j]);
    }
    assert es[|es| - 1].key == e.key;
    forall k | HasKey(lists[i], k) ensures HasKey(es, k) {
      var j :| 0 <= j < |lists[i]| && lists[i][j].key == k;
      assert es[j].key == k;
    }
    OneListChanges(hash, lists, m, m', i, es, e.key);
  }

  lemma Updated(hash: Hash, lists: seq<seq<Entry>>, m: Map, i: nat, j: nat, v: Bytes)
    requires Stores(hash, lists, m) && i < |lists| && j < |lists[i]| && |v| == VALUE_SIZE
    ensures Stores(hash, lists[i := lists[i][j := Entry(lists[i][j].key, v)]], m[lists[i][j].key := v])
  {
    var key := lists[i][j].key;
    var m', es := m[key := v], lists[i][j := Entry(key, v)];
    assert ListOk(hash, |lists|, m, i, lists[i]);
    forall x | 0 <= x < |es| ensures EntryOk(hash, |lists|, m', i, es[x]) {
      assert EntryOk(hash, |lists|, m, i, lists[i][x]);
    }
    forall x | 0 <= x < |es| ensures es[x].key == lists[i][x].key {}
    assert es[j].key == key;
    forall k | HasKey(lists[i], k) ensures HasKey(es, k) {
      var x :| 0 <= x < |lists[i]| && lists[i][x].key == k;
      assert es[x].key == k;
    }
    OneListChanges(hash, lists, m, m', i, es, key);
  }

  lemma Removed(hash: Hash, lists: seq<seq<Entry>>, m: Map, i: nat, j: nat)
    requires Stores(hash, lists, m) && i < |lists| && j < |lists[i]|
    ensures lists[i][j].key in m && Stores(hash, lists[i := Without(lists[i], j)], m - {lists[i][j].key})
  {
    var key := lists[i][j].key;
    var m', es := m - {key}, Without(lists[i], j);
    assert ListOk(hash, |lists|, m, i, lists[i]) && EntryOk(hash, |lists|, m, i, lists[i][j]);
    forall x | 0 <= x < |es| ensures es[x] == lists[i][if x < j then x else x + 1] {}
    forall x | 0 <= x < |es| ensures EntryOk(hash, |lists|, m', i, es[x]) {
      assert EntryOk(hash, |lists|, m, i, lists[i][if x < j then x else x + 1]);
    }
    forall k | k != key && HasKey(lists[i], k) ensures HasKey(es, k) {
      var x :| 0 <= x < |lists[i]| && lists[i][x].key == k;
      assert es[if x < j then x else x - 1].key == k;
    }
    OneListChanges(hash, lists, m, m', i, es, key);
  }

  // ---- the same on packed bytes ------------------------------------------------------------------------

  lemma PackedWithout(es: seq<Entry>, j: nat)
    requires AllOk(es) && j < |es|
    ensures AllOk(Without(es, j))
    ensures Offset(es, j) + PackSize(es[j]) <= |PackAll(es)|
    ensures PackAll(Without(es, j)) == PackAll(es)[..Offset(es, j)] + PackAll(es)[Offset(es, j) + PackSize(es[j])..]
  {
    AroundEntry(es, j);
    var a, b, c := PackAll(es[..j]), Pack(es[j]), PackAll(es[j + 1..]);
    Cut(a, b, c);
    PackWithout(es, j);
  }

  lemma PackWithout(es: seq<Entry>, j: nat)
    requires AllOk(es) && j < |es|
    ensures AllOk(Without(es, j)) && PackAll(Without(es, j)) == PackAll(es[..j]) + PackAll(es[j + 1..])
  {
    PackConcat(es[..j], es[j + 1..]);
  }

  lemma Cut(a: Bytes, b: Bytes, c: Bytes)
    ensures (a + (b + c))[..|a|] == a && (a + (b + c))[|a| + |b|..] == c
  {
  }

  /** Where the value of entry j lies. */
  function ValueAt(es: seq<Entry>, j: nat): nat
    requires AllOk(es) && j < |es|
  {
    Offset(es, j) + LengthSize(|es[j].key|) + |es[j].key|
  }

  lemma PackedUpdate(es: seq<Entry>, j: nat, v: Bytes)
    requires AllOk(es) && j < |es| && |v| == VALUE_SIZE
    ensures AllOk(es[j := Entry(es[j].key, v)])
    ensures ValueAt(es, j) + VALUE_SIZE <= |PackAll(es)|
    ensures PackAll(es[j := Entry(es[j].key, v)]) == PackAll(es)[..ValueAt(es, j)] + v
            + PackAll(es)[ValueAt(es, j) + VALUE_SIZE..]
  {
    var f := Entry(es[j].key, v);
    var fs := es[j := f];
    AroundEntry(es, j);
    AroundEntry(fs, j);
    assert fs[..j] == es[..j] && fs[j + 1..] == es[j + 1..];
    LengthReadBack(|es[j].key|, []);
    Overwrite(PackAll(es[..j]), LengthBytes(|f.key|), f.key, es[j].value, v, PackAll(es[j + 1..]));
  }

  lemma Overwrite(a: Bytes, l: Bytes, k: Bytes, u: Bytes, v: Bytes, rest: Bytes)
    requires |u| == |v|
    ensures var s, p := a + (l + k + u + rest), |a| + |l| + |k|;
            a + (l + k + v + rest) == s[..p] + v + s[p + |v|..]
  {
  }

  // ---- growing the table -------------------------------------------------------------------------------

  /** The entries of all given lists, one list after the other. */
  function Flat(lists: seq<seq<Entry>>): seq<Entry> {
    if |lists| == 0 then [] else Flat(lists[..|lists| - 1]) + lists[|lists| - 1]
  }

  /** The lists for n slots when entries are put at the end of the slots of their keys, in this order. */
  function Spread(hash: Hash, es: seq<Entry>, n: nat): (r: seq<seq<Entry>>)
    requires n > 0
    ensures |r| == n
  {
    if |es| == 0 then seq(n, _ => [])
    else
      var before, e := Spread(hash, es[..|es| - 1], n), es[|es| - 1];
      before[SlotOf(hash, e.key, n) := before[SlotOf(hash, e.key, n)] + [e]]
  }

  lemma {:induction false} SpreadMembers(hash: Hash, es: seq<Entry>, n: nat, i: nat, e: Entry)
    requires n > 0 && i < n
    ensures e in Spread(hash, es, n)[i] <==> e in es && SlotOf(hash, e.key, n) == i
  {
    if |es| > 0 {
      SpreadMembers(hash, es[..|es| - 1], n, i, e);
      assert es == es[..|es| - 1] + [es[|es| - 1]];
    }
  }

  lemma {:induction false} SpreadDistinct(hash: Hash, es: seq<Entry>, n: nat, i: nat)
    requires n > 0 && i < n && DistinctKeys(es)
    ensures DistinctKeys(Spread(hash, es, n)[i])
  {
    if |es| > 0 {
      var k := |es| - 1;
      SpreadDistinct(hash, es[..k], n, i);
      var before := Spread(hash, es[..k], n)[i];
      forall j | 0 <= j < |before| ensures before[j].key != es[k].key {
        SpreadMembers(hash, es[..k], n, i, before[j]);
        assert before[j] in es[..k];
      }
    }
  }

  lemma {:induction false} FlatMembers(lists: seq<seq<Entry>>, e: Entry)
    ensures e in Flat(lists) <==> exists i :: 0 <= i < |lists| && e in lists[i]
  {
    if |lists| > 0 {
      var k := |lists| - 1;
      FlatMembers(lists[..k], e);
      if e in lists[..k + 1][k] {
        assert e in lists[k];
      }
      assert forall i :: 0 <= i < k ==> lists[..k][i] == lists[i];
    }
  }

  lemma {:induction false} FlatDistinct(hash: Hash, lists: seq<seq<Entry>>, n: nat, m: Map, k: nat)
    requires n > 0 && k <= |lists| && forall i :: 0 <= i < |lists| ==> ListOk(hash, n, m, i, lists[i])
    ensures DistinctKeys(Flat(lists[..k]))
  {
    if k > 0 {
      FlatDistinct(hash, lists, n, m, k - 1);
      assert lists[..k][..k - 1] == lists[..k - 1];
      var a, b := Flat(lists[..k - 1]), lists[k - 1];
      forall x, y | 0 <= x < |a| && 0 <= y < |b| ensures a[x].key != b[y].key {
        FlatMembers(lists[..k - 1], a[x]);
        var i :| 0 <= i < k - 1 && a[x] in lists[..k - 1][i];
        var z :| 0 <= z < |lists[i]| && lists[i][z] == a[x];
        assert ListOk(hash, n, m, i, lists[i]) && ListOk(hash, n, m, k - 1, b);
        assert EntryOk(hash, n, m, i, lists[i][z]) && EntryOk(hash, n, m, k - 1, b[y]);
      }
    }
  }

  lemma SpreadStores(hash: Hash, lists: seq<seq<Entry>>, m: Map, n: nat)
    requires Stores(hash, lists, m) && n > 0
    ensures Stores(hash, Spread(hash, Flat(lists), n), m) && |Flat(lists)| == |m|
  {
    var all := Flat(lists);
    var lists' := Spread(hash, all, n);
    assert lists[..|lists|] == lists;
    FlatDistinct(hash, lists, |lists|, m, |lists|);
    FlatIsMap(hash, lists, m);
    forall i | 0 <= i < n ensures ListOk(hash, n, m, i, lists'[i]) {
      SpreadDistinct(hash, all, n, i);
      forall j | 0 <= j < |lists'[i]| ensures EntryOk(hash, n, m, i, lists'[i][j]) {
        SpreadMembers(hash, all, n, i, lists'[i][j]);
      }
    }
    forall key | key in m ensures KeyOk(hash, m, lists', key) {
      var i := SlotOf(hash, key, n);
      SpreadMembers(hash, all, n, i, Entry(key, m[key]));
      var j :| 0 <= j < |lists'[i]| && lists'[i][j] == Entry(key, m[key]);
      assert lists'[i][j].key == key;
    }
    KeysOnce(all, m);
  }

  lemma FlatIsMap(hash: Hash, lists: seq<seq<Entry>>, m: Map)
    requires Stores(hash, lists, m)
    ensures forall e :: e in Flat(lists) ==> e.Ok() && e.key in m && m[e.key] == e.value
    ensures forall key :: key in m ==> Entry(key, m[key]) in Flat(lists)
  {
    forall e | e in Flat(lists) ensures e.Ok() && e.key in m && m[e.key] == e.value {
      FlatMembers(lists, e);
      var i :| 0 <= i < |lists| && e in lists[i];
      var j :| 0 <= j < |lists[i]| && lists[i][j] == e;
      assert ListOk(hash, |lists|, m, i, lists[i]) && EntryOk(hash, |lists|, m, i, lists[i][j]);
    }
    forall key | key in m ensures Entry(key, m[key]) in Flat(lists) {
      assert KeyOk(hash, m, lists, key);
      var i := SlotOf(hash, key, |lists|);
      var j :| 0 <= j < |lists[i]| && lists[i][j].key == key;
      assert ListOk(hash, |lists|, m, i, lists[i]) && EntryOk(hash, |lists|, m, i, lists[i][j]);
      assert lists[i][j] == Entry(key, m[key]) && lists[i][j] in lists[i];
      FlatMembers(lists, Entry(key, m[key]));
    }
  }

  lemma {:induction false} KeysOnce(es: seq<Entry>, m: Map)
    requires DistinctKeys(es) && (forall e :: e in es ==> e.key in m && m[e.key] == e.value)
    requires forall key :: key in m ==> Entry(key, m[key]) in es
    ensures |es| == |m|
  {
    if |es| == 0 {
      assert m == map[];
    } else {
      var k := |es| - 1;
      var e := es[k];
      assert es == es[..k] + [e];
      var m' := m - {e.key};
      assert m'.Keys == m.Keys - {e.key} && e in es;
      forall f | f in es[..k] ensures f.key in m' && m'[f.key] == f.value { assert f in es; }
      KeysOnce(es[..k], m');
    }
  }

  /** The map that a list of entries says. */
  function MapOf(es: seq<Entry>): Map {
    if |es| == 0 then map[] else MapOf(es[..|es| - 1])[es[|es| - 1].key := es[|es| - 1].value]
  }

  lemma {:induction false} MapOfKeys(es: seq<Entry>, key: Bytes)
    ensures key in MapOf(es) <==> HasKey(es, key)
    ensures key in MapOf(es) ==> Entry(key, MapOf(es)[key]) in es
  {
    if |es| > 0 {
      var k := |es| - 1;
      MapOfKeys(es[..k], key);
      assert es == es[..k] + [es[k]];
      if HasKey(es[..k], key) {
        var j :| 0 <= j < k && es[..k][j].key == key;
        assert es[j].key == key;
      }
      if HasKey(es, key) && es[k].key != key {
        var j :| 0 <= j < |es| && es[j].key == key;
        assert es[..k][j].key == key;
      }
    }
  }

  lemma FlatIsMapOf(hash: Hash, lists: seq<seq<Entry>>, m: Map)
    requires Stores(hash, lists, m)
    ensures MapOf(Flat(lists)) == m
  {
    var all := Flat(lists);
    FlatIsMap(hash, lists, m);
    forall key ensures key in MapOf(all) <==> key in m {
      MapOfKeys(all, key);
      if HasKey(all, key) {
        var j :| 0 <= j < |all| && all[j].key == key;
        assert all[j] in all;
      }
      if key in m {
        var j :| 0 <= j < |all| && all[j] == Entry(key, m[key]);
        assert all[j].key == key;
      }
    }
    forall key | key in m ensures MapOf(all)[key] == m[key] { MapOfKeys(all, key); }
  }

  lemma {:induction false} FlatBegins(lists: seq<seq<Entry>>, i: nat)
    requires i <= |lists|
    ensures Flat(lists[..i]) <= Flat(lists)
  {
    if i < |lists| {
      var k := |lists| - 1;
      FlatBegins(lists[..k], i);
      assert lists[..k][..i] == lists[..i];
    } else {
      assert lists[..i] == lists;
    }
  }

  /** A walk over all slots comes to each key once, with what the map says. */
  lemma WalkComesOnce(hash: Hash, lists: seq<seq<Entry>>, m: Map, i: nat, j: nat)
    requires Stores(hash, lists, m) && i < |lists| && j < |lists[i]|
    ensures var e := lists[i][j]; e.key in m && m[e.key] == e.value && e.key !in MapOf(Passed(lists, i, j))
    ensures MapOf(Passed(lists, i, j) + [lists[i][j]])
            == MapOf(Passed(lists, i, j))[lists[i][j].key := lists[i][j].value]
  {
    var es, e, all := Passed(lists, i, j), lists[i][j], Flat(lists);
    assert lists[..|lists|] == lists;
    FlatDistinct(hash, lists, |lists|, m, |lists|);
    FlatIsMap(hash, lists, m);
    FlatBegins(lists, i + 1);
    assert lists[..i + 1][..i] == lists[..i];
    assert Flat(lists[..i + 1]) == Flat(lists[..i]) + lists[i];
    assert (es + [e]) <= all by { assert lists[i] == lists[i][..j] + [e] + lists[i][j + 1..]; }
    assert all[|es|] == e && e in all;
    MapOfKeys(es, e.key);
    forall x | 0 <= x < |es| ensures es[x].key != e.key { assert all[x] == es[x]; }
    assert (es + [e])[..|es|] == es;
  }

  // ---- the table -----------------------------------------------------------------------------------------

  class Table {
    const hash: Hash
    var slots: seq<Bytes>
    var m: nat
    ghost var lists: seq<seq<Entry>>
    ghost var M: Map

    ghost predicate Valid() reads this {
      Stores(hash, lists, M) && Packed(slots, lists) && m == |M|
    }

    constructor (h: Hash, n: nat)
      requires n > 0
      ensures Valid() && M == map[] && hash == h
    {
      hash := h;
      slots, m := seq(n, _ => []), 0;
      lists, M := seq(n, _ => []), map[];
    }

    /** Walks over the slot of a key; pos is where the entry found starts, or the end of the slot. */
    method Search(key: Bytes) returns (found: bool, i: nat, pos: nat, ghost j: nat)
      requires Valid()
      ensures i == SlotOf(hash, key, |slots|) && i < |lists| && AllOk(lists[i])
      ensures found <==> key in M
      ensures found ==>
                j < |lists[i]| && lists[i][j].key == key && pos == Offset(lists[i], j) && M[key] == lists[i][j].value
    {
      i := hash(key) % |slots|;
      var slot := slots[i];
      ghost var es := lists[i];
      assert SlotIs(slots, lists, i) && ListOk(hash, |lists|, M, i, es);
      assert key in M ==> KeyOk(hash, M, lists, key);
      pos, j, found := 0, 0, false;
      while pos < |slot|
        invariant j <= |es| && pos == Offset(es, j) && !found
        invariant forall x :: 0 <= x < j ==> es[x].key != key
        decreases |es| - j
      {
        WalkOn(es, j);
        assert EntryOk(hash, |lists|, M, i, es[j]);
        var next;
        found, next := Matches(slot, pos, key, es[j]);
        if found {
          return;
        }
        pos := next;
        j := j + 1;
      }
      WalkOn(es, j);
    }

    method TryGet(key: Bytes) returns (r: Option<Bytes>)
      requires Valid()
      ensures r == if key in M then Some(M[key]) else None
    {
      var found, i, pos;
      ghost var j;
      found, i, pos, j := Search(key);
      r := None;
      if found {
        AtEntry(lists[i], j);
        assert SlotIs(slots, lists, i);
        var p := pos + (if |key| < 128 then 1 else 2) + |key|;
        r := Some(slots[i][p..p + VALUE_SIZE]);
      }
    }

    /**
      The place of the value of a key, which is inserted with zeros if it is missing; keys over MAX_KEY are refused.
      Before, the slots are doubled exactly if the table has reached its load.
     */
    method Get(key: Bytes) returns (ok: bool, i: nat, p: nat, ghost j: nat)
      requires Valid()
      modifies this
      ensures Valid() && (ok <==> |key| <= MAX_KEY)
      ensures M == if ok && key !in old(M) then old(M)[key := Zeros()] else old(M)
      ensures |slots| == if ok && |old(M)| >= MAX_LOAD * |old(slots)| then 2 * |old(slots)| else |old(slots)|
      ensures ok ==>
                && i < |lists| && AllOk(lists[i]) && j < |lists[i]|
                && lists[i][j].key == key && p == ValueAt(lists[i], j)
    {
      ok, i, p, j := |key| <= MAX_KEY, 0, 0, 0;
      if !ok {
        return;
      }
      if m >= MAX_LOAD * |slots| {
        Expand();
      }
      var found, pos;
      found, i, pos, j := Search(key);
      if found {
        p := pos + LengthSize(|key|) + |key|;
      } else {
        p, j := Insert(key, i);
      }
    }

    method Insert(key: Bytes, i: nat) returns (p: nat, ghost j: nat)
      requires Valid() && |key| <= MAX_KEY && key !in M && |slots| > 0 && i == SlotOf(hash, key, |slots|)
      modifies this
      ensures Valid() && M == old(M)[key := Zeros()] && |slots| == |old(slots)|
      ensures i < |lists| && AllOk(lists[i]) && j < |lists[i]| && lists[i][j].key == key && p == ValueAt(lists[i], j)
    {
      ghost var e := Entry(key, Zeros());
      ghost var es := lists[i];
      assert SlotIs(slots, lists, i);
      Inserted(hash, lists, M, i, e);
      PackOne(e);
      PackConcat(es, [e]);
      LengthReadBack(|key|, []);
      p := |slots[i]| + LengthSize(|key|) + |key|;
      Regroup(slots[i], LengthBytes(|key|), key, Zeros());
      slots := slots[i := slots[i] + LengthBytes(|key|) + key + Zeros()];
      PackedOne(slots, old(slots), lists, i, es + [e]);
      lists := lists[i := es + [e]];
      M := M[key := Zeros()];
      m := m + 1;
      j := |es|;
      assert (es + [e])[..j] == es;
    }

    /** Writing through the pointer that Get returned. */
    method Write(i: nat, p: nat, ghost j: nat, v: Bytes)
      requires Valid() && |v| == VALUE_SIZE
      requires i < |lists| && AllOk(lists[i]) && j < |lists[i]| && p == ValueAt(lists[i], j)
      modifies this
      ensures Valid() && M == old(M)[old(lists)[i][j].key := v]
    {
      ghost var es := lists[i];
      ghost var key := es[j].key;
      assert SlotIs(slots, lists, i) && ListOk(hash, |lists|, M, i, es) && EntryOk(hash, |lists|, M, i, es[j]);
      Updated(hash, lists, M, i, j, v);
      PackedUpdate(es, j, v);
      slots := slots[i := slots[i][..p] + v + slots[i][p + VALUE_SIZE..]];
      PackedOne(slots, old(slots), lists, i, es[j := Entry(key, v)]);
      lists := lists[i := es[j := Entry(key, v)]];
      M := M[key := v];
      assert M.Keys == old(M).Keys;
    }

    method Set(key: Bytes, v: Bytes) returns (ok: bool)
      requires Valid() && |v| == VALUE_SIZE
      modifies this
      ensures Valid() && (ok <==> |key| <= MAX_KEY) && M == if ok then old(M)[key := v] else old(M)
    {
      var i, p;
      ghost var j;
      ok, i, p, j := Get(key);
      if ok {
        Write(i, p, j, v);
      }
    }

    /** What lies behind the entry is moved to its place. */
    method Del(key: Bytes) returns (r: int)
      requires Valid()
      modifies this
      ensures Valid() && M == old(M) - {key} && r == if key in old(M) then 0 else -1
    {
      var found, i, s;
      ghost var j;
      found, i, s, j := Search(key);
      r := -1;
      if found {
        ghost var es := lists[i];
        assert SlotIs(slots, lists, i);
        PackedWithout(es, j);
        Removed(hash, lists, M, i, j);
        var t := s + LengthSize(|key|) + |key| + VALUE_SIZE;
        slots := slots[i := slots[i][..s] + slots[i][t..]];
        PackedOne(slots, old(slots), lists, i, Without(es, j));
        lists := lists[i := Without(es, j)];
        assert (M - {key}).Keys == M.Keys - {key};
        M := M - {key};
        m := m - 1;
        r := 0;
      }
      assert M == old(M) - {key};
    }

    method Expand()
      requires Valid()
      modifies this
      ensures Valid() && M == old(M) && m == old(m) && |slots| == 2 * old(|slots|)
    {
      slots := ExpandSlots(hash, slots, m, lists, M);
      lists := Spread(hash, Flat(lists), |slots|);
    }
  }

  /** Is the entry at position pos that of the key? If not, next is where the entry behind it is. */
  method Matches(slot: Bytes, pos: nat, key: Bytes, ghost there: Entry) returns (found: bool, next: nat)
    requires EntryAt(slot, pos, there)
    ensures found <==> there.key == key
    ensures next == pos + PackSize(there)
  {
    var k := KeyLen(slot[pos..]);
    var s := pos + if k < 128 then 1 else 2;
    found := k == |key| && slot[s..s + |key|] == key;
    next := s + k + VALUE_SIZE;
  }

  lemma Regroup(a: Bytes, b: Bytes, c: Bytes, d: Bytes)
    ensures a + b + c + d == a + (b + c + d)
  {
  }

  // Only slot i was changed.
  lemma PackedOne(slots': seq<Bytes>, slots: seq<Bytes>, lists: seq<seq<Entry>>, i: nat, es: seq<Entry>)
    requires Packed(slots, lists) && i < |slots| && AllOk(es) && slots' == slots[i := PackAll(es)]
    ensures Packed(slots', lists[i := es])
  {
    var lists' := lists[i := es];
    forall x | 0 <= x < |slots'| ensures SlotIs(slots', lists', x) { assert x != i ==> SlotIs(slots, lists, x); }
  }

  /** Any map of keys that are not too long has packed slots, of any number, that store it. */
  lemma {:induction false} SlotsExist(hash: Hash, n: nat, m: Map) returns (slots: seq<Bytes>, lists: seq<seq<Entry>>)
    requires n > 0 && forall k :: k in m ==> |k| <= MAX_KEY && |m[k]| == VALUE_SIZE
    ensures |lists| == n && Stores(hash, lists, m) && Packed(slots, lists)
    decreases |m|
  {
    if m == map[] {
      slots, lists := seq(n, _ => []), seq(n, _ => []);
    } else {
      var k :| k in m;
      var m', e := m - {k}, Entry(k, m[k]);
      assert m'.Keys == m.Keys - {k} && m == m'[k := m[k]];
      slots, lists := SlotsExist(hash, n, m');
      var i := SlotOf(hash, k, n);
      Inserted(hash, lists, m', i, e);
      assert SlotIs(slots, lists, i);
      PackConcat(lists[i], [e]);
      var before := slots;
      slots := slots[i := PackAll(lists[i] + [e])];
      PackedOne(slots, before, lists, i, lists[i] + [e]);
      lists := lists[i := lists[i] + [e]];
    }
  }

  // The walk is at an entry, or behind the last one.
  lemma WalkOn(es: seq<Entry>, j: nat)
    requires AllOk(es) && j <= |es|
    ensures j < |es| <==> Offset(es, j) < |PackAll(es)|
    ensures j < |es| ==>
            EntryAt(PackAll(es), Offset(es, j), es[j]) && Offset(es, j + 1) == Offset(es, j) + PackSize(es[j])
  {
    if j < |es| {
      AtEntry(es, j);
    } else {
      assert es[..j] == es;
    }
  }

  // ---- the two walks of ahtable_expand -------------------------------------------------------------------

  /** The bytes that each slot of the larger table needs. */
  function Sizes(hash: Hash, es: seq<Entry>, n: nat): (r: seq<nat>)
    requires n > 0
    ensures |r| == n
  {
    if |es| == 0 then seq(n, _ => 0)
    else
      var before, e := Sizes(hash, es[..|es| - 1], n), es[|es| - 1];
      before[SlotOf(hash, e.key, n) := before[SlotOf(hash, e.key, n)] + PackSize(e)]
  }

  ghost predicate Filled(hash: Hash, es: seq<Entry>, n: nat, slots: seq<Bytes>)
    requires n > 0
  {
    |slots| == n && Packed(slots, Spread(hash, es, n))
  }

  /** What is written to the slots is just what was measured. */
  lemma {:induction false} SizesFit(hash: Hash, es: seq<Entry>, n: nat, i: nat)
    requires n > 0 && i < n && AllOk(es)
    ensures AllOk(Spread(hash, es, n)[i]) && |PackAll(Spread(hash, es, n)[i])| == Sizes(hash, es, n)[i]
  {
    if |es| > 0 {
      var e := es[|es| - 1];
      SizesFit(hash, es[..|es| - 1], n, i);
      var before := Spread(hash, es[..|es| - 1], n)[i];
      PackOne(e);
      PackConcat(before, [e]);
      FirstEntry(e, []);
    }
  }

  lemma FilledOn(hash: Hash, es: seq<Entry>, n: nat, slots: seq<Bytes>, e: Entry)
    requires n > 0 && AllOk(es) && e.Ok() && Filled(hash, es, n, slots)
    ensures AllOk(es + [e])
    ensures var h := SlotOf(hash, e.key, n); Filled(hash, es + [e], n, slots[h := slots[h] + Pack(e)])
  {
    var h := SlotOf(hash, e.key, n);
    var lists := Spread(hash, es, n);
    assert (es + [e])[..|es|] == es;
    assert SlotIs(slots, lists, h);
    PackOne(e);
    PackConcat(lists[h], [e]);
    PackedOne(slots[h := slots[h] + Pack(e)], slots, lists, h, lists[h] + [e]);
  }

  // The entries that a walk over all slots has passed when it stands at entry j of slot i.
  function Passed(lists: seq<seq<Entry>>, i: nat, j: nat): seq<Entry>
    requires i <= |lists| && (i < |lists| ==> j <= |lists[i]|) && (i == |lists| ==> j == 0)
  {
    Flat(lists[..i]) + if i < |lists| then lists[i][..j] else []
  }

  lemma PassedOn(lists: seq<seq<Entry>>, i: nat, j: nat)
    requires i < |lists| && j <= |lists[i]|
    ensures j < |lists[i]| ==> Passed(lists, i, j + 1) == Passed(lists, i, j) + [lists[i][j]]
    ensures j == |lists[i]| ==> Passed(lists, i + 1, 0) == Passed(lists, i, j)
  {
    if j < |lists[i]| {
      assert lists[i][..j + 1] == lists[i][..j] + [lists[i][j]];
    } else {
      assert lists[..i + 1][..i] == lists[..i] && lists[i][..j] == lists[i];
      assert i + 1 < |lists| ==> lists[i + 1][..0] == [];
    }
  }

  /** An iterator over all entries: its position in the slots. */
  datatype Iter = Iter(i: nat, s: nat)

  ghost predicate IterAt(lists: seq<seq<Entry>>, it: Iter, j: nat) {
    && it.i <= |lists| && (forall i :: 0 <= i < |lists| ==> AllOk(lists[i]))
    && (if it.i < |lists| then j < |lists[it.i]| && it.s == Offset(lists[it.i], j) else j == 0)
  }

  method SkipEmpty(slots: seq<Bytes>, it0: Iter, ghost lists: seq<seq<Entry>>, ghost j0: nat)
      returns (it: Iter, ghost j: nat)
    requires Packed(slots, lists) && it0.i <= |lists| && (it0.i < |lists| ==> j0 <= |lists[it0.i]|)
             && (it0.i == |lists| ==> j0 == 0)
    requires it0.i < |lists| ==> AllOk(lists[it0.i]) && it0.s == Offset(lists[it0.i], j0)
    ensures IterAt(lists, it, j) && Passed(lists, it.i, j) == Passed(lists, it0.i, j0)
    ensures it.i > it0.i || (it.i == it0.i && j == j0)
  {
    forall i | 0 <= i < |lists| ensures AllOk(lists[i]) { assert SlotIs(slots, lists, i); }
    it, j := it0, j0;
    while it.i < |slots| && it.s >= |slots[it.i]|
      invariant it.i <= |lists| && (it.i < |lists| ==> j <= |lists[it.i]| && it.s == Offset(lists[it.i], j))
                && (it.i == |lists| ==> j == 0)
      invariant Passed(lists, it.i, j) == Passed(lists, it0.i, j0)
      invariant it.i > it0.i || (it.i == it0.i && j == j0)
      decreases |slots| - it.i
    {
      assert SlotIs(slots, lists, it.i);
      WalkOn(lists[it.i], j);
      PassedOn(lists, it.i, j);
      it, j := Iter(it.i + 1, 0), 0;
    }
    if it.i < |slots| {
      assert SlotIs(slots, lists, it.i);
      WalkOn(lists[it.i], j);
    }
  }

  method ReadEntry(slot: Bytes, s0: nat, ghost there: Entry) returns (e: Entry)
    requires EntryAt(slot, s0, there)
    ensures e == there
  {
    var k := KeyLen(slot[s0..]);
    var s := s0 + if k < 128 then 1 else 2;
    e := Entry(slot[s..s + k], slot[s + k..s + k + VALUE_SIZE]);
  }

  lemma SizesOn(hash: Hash, es: seq<Entry>, n: nat, e: Entry)
    requires n > 0
    ensures var h, s := SlotOf(hash, e.key, n), Sizes(hash, es, n);
            Sizes(hash, es + [e], n) == s[h := s[h] + PackSize(e)]
  {
    assert (es + [e])[..|es|] == es;
  }

  /** The entry at which an iterator stands, and the iterator behind it. */
  method NextEntry(slots: seq<Bytes>, it: Iter, ghost lists: seq<seq<Entry>>, ghost j: nat)
      returns (e: Entry, it': Iter, ghost j': nat)
    requires Packed(slots, lists) && IterAt(lists, it, j) && it.i < |lists|
    ensures e == lists[it.i][j] && e.Ok() && IterAt(lists, it', j')
    ensures Passed(lists, it'.i, j') == Passed(lists, it.i, j) + [e]
    ensures it'.i > it.i || (it'.i == it.i && j' > j)
  {
    var slot := slots[it.i];
    assert SlotIs(slots, lists, it.i);
    WalkOn(lists[it.i], j);
    PassedOn(lists, it.i, j);
    e := ReadEntry(slot, it.s, lists[it.i][j]);
    it', j' := SkipEmpty(slots, Iter(it.i, it.s + PackSize(e)), lists, j + 1);
  }

  /** ahtable_expand: the slots of a table of twice the size with the same entries. */
  method ExpandSlots(hash: Hash, slots: seq<Bytes>, m: nat, ghost lists: seq<seq<Entry>>, ghost M: Map)
      returns (slots': seq<Bytes>)
    requires Stores(hash, lists, M) && Packed(slots, lists) && m == |M|
    ensures |slots'| == 2 * |slots| && Packed(slots', Spread(hash, Flat(lists), |slots'|))
    ensures Stores(hash, Spread(hash, Flat(lists), |slots'|), M)
  {
    var n := 2 * |slots|;
    SpreadStores(hash, lists, M, n);
    var sizes := MeasureSlots(hash, slots, n, m, lists);
    slots' := FillSlots(hash, slots, n, lists);
    forall i | 0 <= i < n ensures |slots'[i]| == sizes[i] {
      assert SlotIs(slots', Spread(hash, Flat(lists), n), i);
      FlatOk(slots, lists);
      SizesFit(hash, Flat(lists), n, i);
    }
  }

  lemma {:induction false} FlatOk(slots: seq<Bytes>, lists: seq<seq<Entry>>)
    requires Packed(slots, lists)
    ensures AllOk(Flat(lists))
  {
    forall x | 0 <= x < |Flat(lists)| ensures Flat(lists)[x].Ok() {
      FlatMembers(lists, Flat(lists)[x]);
      assert Flat(lists)[x] in Flat(lists);
      var i :| 0 <= i < |lists| && Flat(lists)[x] in lists[i];
      assert SlotIs(slots, lists, i);
    }
  }

  method AddSize(hash: Hash, sizes: seq<nat>, n: nat, e: Entry, ghost es: seq<Entry>) returns (sizes': seq<nat>)
    requires n > 0 && sizes == Sizes(hash, es, n)
    ensures sizes' == Sizes(hash, es + [e], n)
  {
    SizesOn(hash, es, n, e);
    var h := hash(e.key) % n;
    sizes' := sizes[h := sizes[h] + |e.key| + VALUE_SIZE + if |e.key| >= 128 then 2 else 1];
  }

  // The first walk: the size of each new slot.
  method MeasureSlots(hash: Hash, slots: seq<Bytes>, n: nat, m: nat, ghost lists: seq<seq<Entry>>)
      returns (sizes: seq<nat>)
    requires Packed(slots, lists) && n > 0 && |Flat(lists)| == m
    ensures sizes == Sizes(hash, Flat(lists), n)
  {
    sizes := seq(n, _ => 0);
    var count := 0;
    var it, j := Begin(slots, lists);
    while it.i < |slots|
      invariant IterAt(lists, it, j) && sizes == Sizes(hash, Passed(lists, it.i, j), n)
                && count == |Passed(lists, it.i, j)|
      decreases |slots| - it.i, if it.i < |slots| then |lists[it.i]| - j else 0
    {
      var e;
      ghost var passed := Passed(lists, it.i, j);
      e, it, j := NextEntry(slots, it, lists, j);
      sizes := AddSize(hash, sizes, n, e, passed);
      count := count + 1;
    }
    AllPassed(lists);
    assert count == m;
  }

  // The second walk: the entries go to the ends of the new slots.
  method FillSlots(hash: Hash, slots: seq<Bytes>, n: nat, ghost lists: seq<seq<Entry>>) returns (slots': seq<Bytes>)
    requires Packed(slots, lists) && n > 0
    ensures Filled(hash, Flat(lists), n, slots')
  {
    slots' := seq(n, _ => []);
    var it, j := Begin(slots, lists);
    while it.i < |slots|
      invariant IterAt(lists, it, j) && AllOk(Passed(lists, it.i, j)) && Filled(hash, Passed(lists, it.i, j), n, slots')
      decreases |slots| - it.i, if it.i < |slots| then |lists[it.i]| - j else 0
    {
      var e;
      ghost var passed := Passed(lists, it.i, j);
      e, it, j := NextEntry(slots, it, lists, j);
      FilledOn(hash, passed, n, slots', e);
      var h := hash(e.key) % n;
      slots' := slots'[h := slots'[h] + Pack(e)];
    }
    AllPassed(lists);
  }

  method Begin(slots: seq<Bytes>, ghost lists: seq<seq<Entry>>) returns (it: Iter, ghost j: nat)
    requires Packed(slots, lists)
    ensures IterAt(lists, it, j) && Passed(lists, it.i, j) == []
  {
    if |slots| > 0 {
      assert SlotIs(slots, lists, 0);
      assert lists[0][..0] == [];
    }
    assert lists[..0] == [];
    it, j := SkipEmpty(slots, Iter(0, 0), lists, 0);
  }

  lemma AllPassed(lists: seq<seq<Entry>>)
    ensures Passed(lists, |lists|, 0) == Flat(lists)
  {
    assert lists[..|lists|] == lists;
  }

  /** At its end a walk has come to what the map says. */
  lemma WalkedAll(hash: Hash, lists: seq<seq<Entry>>, m: Map)
    requires Stores(hash, lists, m)
    ensures MapOf(Passed(lists, |lists|, 0)) == m
  {
    AllPassed(lists);
    FlatIsMapOf(hash, lists, m);
  }
}
