/** The cache of modules/http/old_parser/lru.c on a table of uthash: the application order is the order of last use. */
module Lru {
  import opened Basics
  import opened HashSort
  import opened UtHash

  /** An entry of the cache as its user sees it. */
  datatype Pair = Pair(key: Key, value: Bytes)

  /** Where a key is in a recency list, or its length. */
  function Where(r: seq<Pair>, k: Key): (p: nat)
    ensures p <= |r| && (p < |r| ==> r[p].key == k) && forall i :: 0 <= i < p ==> r[i].key != k
  {
    if |r| == 0 || r[0].key == k then 0
    else
      var p := Where(r[1..], k) + 1;
      assert forall i :: 0 < i < p ==> r[i] == r[1..][i - 1];
      p
  }

  /** The entry at p is taken out and put last. */
  function Touched(r: seq<Pair>, p: nat): seq<Pair>
    requires p < |r|
  {
    Without(r, p) + [r[p]]
  }

  /** What a lookup does to the recency list: the entry found is the last used. */
  function Used(r: seq<Pair>, k: Key): seq<Pair> {
    var p := Where(r, k);
    if p < |r| then Touched(r, p) else r
  }

  function Added(r: seq<Pair>, e: Pair, max: nat): seq<Pair> {
    if |r| + 1 >= max then (r + [e])[1..] else r + [e]
  }

  ghost predicate KeysOnce(r: seq<Pair>) {
    forall i, j :: 0 <= i < j < |r| ==> r[i].key != r[j].key
  }

  ghost predicate InMaps(l: seq<Ptr>, key: map<Ptr, Key>, value: map<Ptr, Bytes>) {
    forall i :: 0 <= i < |l| ==> l[i] in key && l[i] in value
  }

  /** The entries of the items l. */
  function View(l: seq<Ptr>, key: map<Ptr, Key>, value: map<Ptr, Bytes>): (r: seq<Pair>)
    requires InMaps(l, key, value)
    ensures |r| == |l| && forall i :: 0 <= i < |l| ==> r[i] == Pair(key[l[i]], value[l[i]])
  {
    seq(|l|, i requires 0 <= i < |l| => Pair(key[l[i]], value[l[i]]))
  }

  class Cache {
    const max: nat
    const table: UtTable
    var value: map<Ptr, Bytes>

    ghost predicate Stored() reads this, table {
      InMaps(table.L, table.key, value)
    }

    /** The recency list: the entry that was used longest ago comes first. */
    ghost function R(): seq<Pair>
      requires Stored()
      reads this, table
    {
      View(table.L, table.key, value)
    }

    ghost predicate Valid() reads this, table {
      table.Valid() && Stored() && max > 0 && |R()| <= max - 1
    }

    constructor (h: Key -> nat, m: nat)
      requires m > 0
      ensures Valid() && R() == [] && max == m && fresh(table)
    {
      max := m;
      table := new UtTable(h);
      value := map[];
    }

    /** lru_find_in_cache: the entry found, at p, is deleted and added again, which makes it the last. */
    method FindInCache(k: Key) returns (r: Option<Bytes>, ghost p: nat)
      requires Valid()
      modifies table
      ensures Valid()
      ensures r.Some? ==>
                && p < |old(R())| && old(R())[p].key == k && r.value == old(R())[p].value
                && R() == Touched(old(R()), p)
      ensures r.None? ==> R() == old(R()) && Where(R(), k) == |R()|
      ensures KeysOnce(old(R())) ==> KeysOnce(R()) && R() == Used(old(R()), k)
    {
      var entry := table.Find(k);
      r, p := None, 0;
      if entry != NULL {
        p :| 0 <= p < |table.L| && table.L[p] == entry;
        UsedOnce(R(), k, p);
        MovedView(table.L, p, table.key, value, R());
        r := Some(value[entry]);
        Touch(table, entry, p);
      } else {
        Nowhere(table.L, table.key, value, k);
      }
    }

    /**
      lru_add_to_cache, which does not ask whether the key is there: the entry is the last, and the first goes if the
      cache is full.
     */
    method AddToCache(entry: Ptr, k: Key, v: Bytes)
      requires Valid() && entry !in table.L && entry != NULL
      modifies this, table
      ensures Valid() && R() == Added(old(R()), Pair(k, v), max)
    {
      AddedView(table.L, entry, table.key, table.key[entry := k], value, value[entry := v], R(), Pair(k, v));
      ghost var r := R() + [Pair(k, v)];
      value := value[entry := v];
      table.Add(entry, k);
      if table.numItems >= max {
        DropFirst(table, r, value);
      }
    }
  }

  /**
    Whether each key is still in one entry after an entry was added: exactly if the key was not there,
    or was in the oldest entry of a full cache, which goes.
   */
  lemma KeysOnceAfterAdd(r: seq<Pair>, e: Pair, max: nat)
    requires KeysOnce(r) && |r| + 1 <= max
    ensures KeysOnce(Added(r, e, max)) <==> Where(r, e.key) == |r| || (Where(r, e.key) == 0 && |r| + 1 >= max)
  {
    var p, a, d := Where(r, e.key), Added(r, e, max), if |r| + 1 >= max then 1 else 0;
    assert |a| == |r| + 1 - d && forall i :: 0 <= i < |a| ==> a[i] == if i + d < |r| then r[i + d] else e;
    if d <= p < |r| {
      assert a[p - d].key == a[|r| - d].key;
    }
  }

  /** A key added twice to a cache for more than one entry is in two entries; a lookup gives one of the two values. */
  lemma AddedTwice(k: Key, v: Bytes, w: Bytes)
    ensures Added(Added([], Pair(k, v), 3), Pair(k, w), 3) == [Pair(k, v), Pair(k, w)]
    ensures !KeysOnce(Added(Added([], Pair(k, v), 3), Pair(k, w), 3))
  {
    var r := Added([], Pair(k, v), 3);
    assert KeysOnce(r);
    KeysOnceAfterAdd(r, Pair(k, w), 3);
  }

  // HASH_DELETE and HASH_ADD_KEYPTR of the same entry.
  method Touch(table: UtTable, entry: Ptr, ghost p: nat)
    requires table.Valid() && p < |table.L| && table.L[p] == entry && entry in table.key
    modifies table
    ensures table.Valid() && table.L == Without(old(table.L), p) + [entry] && table.key == old(table.key)
  {
    var own := table.key[entry];
    NotLeft(table.next, table.prev, table.head, table.tail, table.L, p);
    table.Delete(entry, p);
    table.Add(entry, own);
    assert table.key == old(table.key);
  }

  // HASH_ITER gives the first entry; it is deleted.
  method DropFirst(table: UtTable, ghost r: seq<Pair>, ghost value: map<Ptr, Bytes>)
    requires table.Valid() && |table.L| > 0 && InMaps(table.L, table.key, value) && r == View(table.L, table.key, value)
    modifies table
    ensures table.Valid() && InMaps(table.L, table.key, value) && View(table.L, table.key, value) == r[1..]
  {
    ghost var l := table.L;
    var first := table.head;
    table.Delete(first, 0);
    assert Without(l, 0) == l[1..];
  }

  lemma NotLeft(next: Links, prev: Links, head: Ptr, tail: Ptr, l: seq<Ptr>, p: nat)
    requires Linked(next, prev, head, tail, l) && p < |l|
    ensures l[p] !in Without(l, p) && l[p] != NULL
  {
    DropMembers(l, p);
    assert l[p] in l;
  }

  lemma Nowhere(l: seq<Ptr>, key: map<Ptr, Key>, value: map<Ptr, Bytes>, k: Key)
    requires InMaps(l, key, value) && forall x :: x in l ==> x in key && key[x] != k
    ensures var r := View(l, key, value); Where(r, k) == |r| && Used(r, k) == r
  {
    var r := View(l, key, value);
    forall i | 0 <= i < |r| ensures r[i].key != k {
      var x := l[i];
      assert x in l && key[x] != k;
      assert r[i] == Pair(key[x], value[x]);
      assert r[i].key == key[x];
    }
  }

  lemma UsedOnce(r: seq<Pair>, k: Key, p: nat)
    requires p < |r| && r[p].key == k
    ensures KeysOnce(r) ==> Where(r, k) == p && KeysOnce(Touched(r, p))
  {
    var u := Touched(r, p);
    forall i | 0 <= i < |r| - 1 ensures u[i] == r[if i < p then i else i + 1] {}
  }

  lemma MovedView(l: seq<Ptr>, p: nat, key: map<Ptr, Key>, value: map<Ptr, Bytes>, before: seq<Pair>)
    requires p < |l| && InMaps(l, key, value) && before == View(l, key, value)
    ensures var l' := Without(l, p) + [l[p]];
            InMaps(l', key, value) && View(l', key, value) == Touched(before, p)
  {
    var l' := Without(l, p) + [l[p]];
    forall i | 0 <= i < |l'| ensures l'[i] == l[if i < p then i else if i < |l| - 1 then i + 1 else p] {
      if i < |l| - 1 {
        DropAt(l, p, i);
      }
    }
  }

  lemma AddedView(l: seq<Ptr>, x: Ptr, key: map<Ptr, Key>, key': map<Ptr, Key>, value: map<Ptr, Bytes>,
                  value': map<Ptr, Bytes>, before: seq<Pair>, e: Pair)
    requires InMaps(l, key, value) && before == View(l, key, value) && x !in l
    requires key' == key[x := e.key] && value' == value[x := e.value]
    ensures InMaps(l + [x], key', value') && View(l + [x], key', value') == before + [e]
  {
    forall i | 0 <= i < |l| ensures l[i] != x { assert l[i] in l; }
  }
}
