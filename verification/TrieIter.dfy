/** Iteration over a HAT-trie (lib/hat-trie/src/hat-trie.c) and the copy made with it (assoc_array_impl_hattrie.h). */
module TrieIter {
  import opened AhIter
  import AhTable
  import opened Basics
  import opened ByteOrder
  import opened HatTrie
  import SlotBytes
  import opened TrieBuckets
  import opened TrieShape
  import opened TrieSteps
  import opened TrieWalk

  // ---- the packed tables of the buckets ----------------------------------------------------------------

  /** What the iterator reads of node x is what the tree has there; for a bucket, packed slots that store its table. */
  ghost predicate ReadAs(h: map<Id, Node>, nodes: map<Id, Shell>, hash: AhTable.Hash, slotsOf: map<Id, Slots>,
                         sizeOf: map<Id, nat>, listsOf: map<Id, Lists>, x: Id) {
    && x in h && x in nodes && nodes[x] == ShellOf(h[x])
    && (h[x].Bucket? ==> Shared(slotsOf, sizeOf, listsOf, hash, h[x].table, x))
  }

  ghost predicate AllReadAs(h: map<Id, Node>, nodes: map<Id, Shell>, hash: AhTable.Hash, slotsOf: map<Id, Slots>,
                            sizeOf: map<Id, nat>, listsOf: map<Id, Lists>) {
    forall x {:trigger ReadAs(h, nodes, hash, slotsOf, sizeOf, listsOf, x)} :: x in h ==>
      ReadAs(h, nodes, hash, slotsOf, sizeOf, listsOf, x)
  }

  function ValuesOf(es: seq<SlotBytes.Entry>): (r: seq<Value>)
    ensures |r| == |es| && forall i :: 0 <= i < |es| ==> r[i] == es[i].value
  {
    seq(|es|, i requires 0 <= i < |es| => es[i].value)
  }

  /** vals are the values of the entries ks. */
  ghost predicate ValuesOk(table: map<Bytes, Value>, ks: seq<Bytes>, vals: seq<Value>) {
    |vals| == |ks| && forall i :: 0 <= i < |ks| ==> ks[i] in table && vals[i] == table[ks[i]] && |vals[i]| == VALUE_SIZE
  }

  // ---- where an iterator stands ------------------------------------------------------------------------

  /** The key buffer, the length of the way in it, and what is still to be visited of a bucket and of the stack. */
  datatype Walk = Walk(key: Bytes, level: nat, bucket: Id, cur: seq<Bytes>, stack: seq<Item>)

  /** v comes before all keys below x. */
  ghost predicate Behind(t: Tree, v: Bytes, x: Id) {
    forall k {:trigger Region(t, x, k)} :: Region(t, x, k) ==> Less(v, k)
  }

  /** The bucket that is being visited: the buffer holds the way to it, and all of it comes before the stack. */
  ghost predicate HereOk(t: Tree, sorted: bool, w: Walk) {
    && t.IsBucket(w.bucket) && w.bucket in t.at && w.level <= |w.key| && t.at[w.bucket] == w.key[..w.level]
    && (forall e :: e in w.cur ==> e in t.h[w.bucket].table)
    && Distinct(w.cur) && (sorted ==> Increasing(w.cur))
    && forall i {:trigger Before(t, w.bucket, w.stack[i].node)} :: 0 <= i < |w.stack| ==>
         Before(t, w.bucket, w.stack[i].node) && w.stack[i].level <= w.level + 1
  }

  ghost predicate VisitedOk(t: Tree, m: map<Bytes, Value>, sorted: bool, w: Walk, visited: seq<Bytes>) {
    && (forall v :: v in visited ==> v in m) && Distinct(visited) && (sorted ==> Increasing(visited))
    && (forall v, i {:trigger Behind(t, v, w.stack[i].node)} :: v in visited && 0 <= i < |w.stack| ==>
       Behind(t, v, w.stack[i].node))
    && (w.cur != [] ==>
       forall v, e {:trigger VisitedBefore(t, sorted, w.bucket, v, e)} :: v in visited && e in w.cur ==>
       VisitedBefore(t, sorted, w.bucket, v, e))
  }

  ghost predicate VisitedBefore(t: Tree, sorted: bool, b: Id, v: Bytes, e: Bytes) {
    b in t.at && v != t.at[b] + e && (sorted ==> Less(v, t.at[b] + e))
  }

  ghost predicate ToCome(t: Tree, w: Walk, k: Bytes) {
    || (w.cur != [] && w.bucket in t.at && t.at[w.bucket] <= k && k[|t.at[w.bucket]|..] in w.cur)
    || exists i :: 0 <= i < |w.stack| && Region(t, w.stack[i].node, k)
  }

  /** No key is forgotten. */
  ghost predicate AllToCome(t: Tree, m: map<Bytes, Value>, w: Walk, visited: seq<Bytes>) {
    forall k {:trigger ToCome(t, w, k)} :: k in m ==> k in visited || ToCome(t, w, k)
  }

  ghost predicate Walking(t: Tree, m: map<Bytes, Value>, sorted: bool, w: Walk, visited: seq<Bytes>) {
    && t.Stores(m) && |w.key| > 0 && StackOk(t, w.key, w.stack)
    && (w.cur != [] ==> HereOk(t, sorted, w))
    && VisitedOk(t, m, sorted, w, visited) && AllToCome(t, m, w, visited)
  }

  lemma StartWalks(t: Tree, m: map<Bytes, Value>, sorted: bool, key: Bytes)
    requires t.Stores(m) && |key| > 0
    ensures Walking(t, m, sorted, Walk(key, 0, t.root, [], [Item(0, 0, t.root)]), [])
  {
    var w := Walk(key, 0, t.root, [], [Item(0, 0, t.root)]);
    assert ItemOk(t, key, w.stack[0]);
    forall k | k in m ensures ToCome(t, w, k) { assert Region(t, w.stack[0].node, k); }
  }

  // ---- a trie node is popped -------------------------------------------------------------------------

  lemma KeyGoesOn(t: Tree, p: Id, k: Bytes)
    requires t.Shape() && t.IsTrie(p) && Region(t, p, k) && ValidKey(k)
    ensures |t.at[p]| < |k|
  {
    assert t.TrieOk(p);
    if t.at[p] == k {
      assert k[|k| - 1] == 0;
    }
  }

  lemma TrieToCome(t: Tree, m: map<Bytes, Value>, w: Walk, w': Walk, k: Bytes)
    requires t.Stores(m) && |w.stack| > 0 && w.cur == [] && t.IsTrie(w.stack[0].node)
             && |t.h[w.stack[0].node].xs| == NODE_CHILDS
    requires w'.stack == AllKids(t, w.stack[0]) + w.stack[1..] && k in m && ToCome(t, w, k)
    ensures ToCome(t, w', k)
  {
    var p := w.stack[0].node;
    var kids := AllKids(t, w.stack[0]);
    assert t.KeyOk(k);
    var i :| 0 <= i < |w.stack| && Region(t, w.stack[i].node, k);
    if i == 0 {
      KeyGoesOn(t, p, k);
      var c := k[|t.at[p]|];
      KidOfKey(t, p, k);
      var j := KidAt(t.h[p].xs, w.stack[0].level + 1, |t.h[p].xs|, c);
      assert w'.stack[j] == kids[j];
      assert Region(t, w'.stack[j].node, k);
    } else {
      assert w'.stack[|kids| + i - 1] == w.stack[i];
      assert Region(t, w'.stack[|kids| + i - 1].node, k);
    }
  }

  lemma KidBehind(t: Tree, p: Id, c: byte, v: Bytes)
    requires t.Shape() && t.IsTrie(p) && |t.h[p].xs| == NODE_CHILDS && p in t.at && Behind(t, v, p)
    ensures Behind(t, v, t.h[p].xs[c])
  {
    forall k | Region(t, t.h[p].xs[c], k) ensures Less(v, k) {
      RegionBelow(t, p, c, k);
      assert Region(t, p, k);
    }
  }

  lemma TrieVisited(t: Tree, m: map<Bytes, Value>, sorted: bool, w: Walk, w': Walk, visited: seq<Bytes>)
    requires t.Shape() && |w.stack| > 0 && t.IsTrie(w.stack[0].node) && |t.h[w.stack[0].node].xs| == NODE_CHILDS
             && w.stack[0].node in t.at
    requires VisitedOk(t, m, sorted, w, visited) && w'.cur == []
    requires w'.stack == AllKids(t, w.stack[0]) + w.stack[1..]
    ensures VisitedOk(t, m, sorted, w', visited)
  {
    var p, kids := w.stack[0].node, AllKids(t, w.stack[0]);
    KidsInLine(t.h[p].xs, w.stack[0].level + 1, |t.h[p].xs|);
    forall v, i | v in visited && 0 <= i < |w'.stack| ensures Behind(t, v, w'.stack[i].node) {
      if i < |kids| {
        assert Behind(t, v, w.stack[0].node);
        KidBehind(t, p, kids[i].c, v);
      } else {
        assert w'.stack[i] == w.stack[i - |kids| + 1];
        assert Behind(t, v, w.stack[i - |kids| + 1].node);
      }
    }
  }

  lemma TrieStep(t: Tree, m: map<Bytes, Value>, sorted: bool, w: Walk, w': Walk, visited: seq<Bytes>)
    requires Walking(t, m, sorted, w, visited) && w.cur == [] && |w.stack| > 0
    requires t.IsTrie(w.stack[0].node) && |t.h[w.stack[0].node].xs| == NODE_CHILDS
    requires w'.cur == [] && w'.stack == AllKids(t, w.stack[0]) + w.stack[1..]
    requires Pushed(w.key, w'.key, w.stack[0].level, w.stack[0].c) && |w'.key| > 0
    ensures Walking(t, m, sorted, w', visited)
  {
    assert ItemOk(t, w.key, w.stack[0]);
    TriePops(t, w.key, w'.key, w.stack);
    TrieVisited(t, m, sorted, w, w', visited);
    forall k | k in m ensures k in visited || ToCome(t, w', k) {
      if ToCome(t, w, k) {
        TrieToCome(t, m, w, w', k);
      }
    }
  }

  // ---- a bucket is popped ----------------------------------------------------------------------------

  // The buffer after a bucket was popped: nothing is put into it for a hybrid bucket.
  ghost predicate Entered(t: Tree, w: Walk, w': Walk)
    requires |w.stack| > 0
  {
    var item := w.stack[0];
    && t.IsBucket(item.node) && item.level > 0 && |w'.key| > 0 && w'.bucket == item.node && w'.stack == w.stack[1..]
    && if t.h[item.node].pure then Pushed(w.key, w'.key, item.level, item.c) && w'.level == item.level
       else w'.key == w.key && w'.level == item.level - 1
  }

  lemma BucketHere(t: Tree, sorted: bool, w: Walk, w': Walk)
    requires |w.stack| > 0 && StackOk(t, w.key, w.stack) && Entered(t, w, w')
    requires Listing(w'.cur, t.h[w'.bucket].table.Keys, sorted)
    ensures HereOk(t, sorted, w') && StackOk(t, w'.key, w'.stack)
  {
    var item := w.stack[0];
    assert ItemOk(t, w.key, item);
    if t.h[item.node].pure {
      RestStays(t, w.key, w'.key, w.stack);
    } else {
      forall i | 0 <= i < |w'.stack| ensures ItemOk(t, w.key, w'.stack[i]) { assert ItemOk(t, w.key, w.stack[i + 1]); }
      forall i, j | 0 <= i < j < |w'.stack|
          ensures Before(t, w'.stack[i].node, w'.stack[j].node) && w'.stack[j].level <= w'.stack[i].level {
        assert Before(t, w.stack[i + 1].node, w.stack[j + 1].node);
      }
    }
    forall i | 0 <= i < |w'.stack| ensures Before(t, w'.bucket, w'.stack[i].node) && w'.stack[i].level <= w'.level + 1 {
      assert Before(t, w.stack[0].node, w.stack[i + 1].node);
    }
  }

  lemma BucketVisited(t: Tree, m: map<Bytes, Value>, sorted: bool, w: Walk, w': Walk, visited: seq<Bytes>)
    requires t.Stores(m) && |w.stack| > 0 && VisitedOk(t, m, sorted, w, visited) && Entered(t, w, w')
             && w'.bucket in t.at
    requires forall e :: e in w'.cur ==> e in t.h[w'.bucket].table
    ensures VisitedOk(t, m, sorted, w', visited)
  {
    var b := w'.bucket;
    assert t.EntriesOk(b, m);
    forall v, i | v in visited && 0 <= i < |w'.stack| ensures Behind(t, v, w'.stack[i].node) {
      assert Behind(t, v, w.stack[i + 1].node);
    }
    forall v, e | v in visited && e in w'.cur ensures VisitedBefore(t, sorted, b, v, e) {
      assert Behind(t, v, w.stack[0].node);
      EntryIsHeld(t, b, e, m);
      assert Region(t, b, t.at[b] + e);
      LessIsStrict(v, v);
    }
  }

  lemma BucketToCome(t: Tree, m: map<Bytes, Value>, sorted: bool, w: Walk, w': Walk, k: Bytes)
    requires t.Stores(m) && |w.stack| > 0 && w.cur == [] && Entered(t, w, w') && w'.bucket in t.at
    requires Listing(w'.cur, t.h[w'.bucket].table.Keys, sorted) && k in m && ToCome(t, w, k)
    ensures ToCome(t, w', k)
  {
    var i :| 0 <= i < |w.stack| && Region(t, w.stack[i].node, k);
    if i == 0 {
      t.CoverDecides(w'.bucket, k, m);
    } else {
      assert w'.stack[i - 1] == w.stack[i];
      assert Region(t, w'.stack[i - 1].node, k);
    }
  }

  lemma BucketStep(t: Tree, m: map<Bytes, Value>, sorted: bool, w: Walk, w': Walk, visited: seq<Bytes>)
    requires Walking(t, m, sorted, w, visited) && w.cur == [] && |w.stack| > 0 && Entered(t, w, w')
    requires Listing(w'.cur, t.h[w'.bucket].table.Keys, sorted)
    ensures Walking(t, m, sorted, w', visited)
  {
    assert ItemOk(t, w.key, w.stack[0]);
    BucketHere(t, sorted, w, w');
    BucketVisited(t, m, sorted, w, w', visited);
    forall k | k in m ensures k in visited || ToCome(t, w', k) {
      if ToCome(t, w, k) {
        BucketToCome(t, m, sorted, w, w', k);
      }
    }
  }

  // ---- an entry is left behind -------------------------------------------------------------------------

  /** The key that the iterator stands at. */
  ghost function Current(t: Tree, w: Walk): Bytes
    requires w.cur != [] && w.bucket in t.at
  {
    t.at[w.bucket] + w.cur[0]
  }

  lemma CurrentIsStored(t: Tree, m: map<Bytes, Value>, sorted: bool, w: Walk)
    requires t.Stores(m) && w.cur != [] && HereOk(t, sorted, w)
    ensures Current(t, w) in m && m[Current(t, w)] == t.h[w.bucket].table[w.cur[0]] && t.Covers(w.bucket, Current(t, w))
  {
    assert t.EntriesOk(w.bucket, m) && w.cur[0] in w.cur;
    EntryIsHeld(t, w.bucket, w.cur[0], m);
  }

  lemma OneMore(s: seq<Bytes>, k: Bytes, sorted: bool)
    requires Distinct(s) && (sorted ==> Increasing(s))
    requires forall v :: v in s ==> v != k && (sorted ==> Less(v, k))
    ensures Distinct(s + [k]) && (sorted ==> Increasing(s + [k]))
  {
    forall i | 0 <= i < |s| ensures s[i] != k && (sorted ==> Less(s[i], k)) { assert s[i] in s; }
  }

  lemma NextVisited(t: Tree, m: map<Bytes, Value>, sorted: bool, w: Walk, visited: seq<Bytes>)
    requires Walking(t, m, sorted, w, visited) && w.cur != []
    ensures VisitedOk(t, m, sorted, w.(cur := w.cur[1..]), visited + [Current(t, w)])
  {
    var w', b, k0 := w.(cur := w.cur[1..]), w.bucket, Current(t, w);
    var visited' := visited + [k0];
    CurrentIsStored(t, m, sorted, w);
    assert w.cur[0] in w.cur && forall e :: e in w'.cur ==> e in w.cur;
    forall v | v in visited ensures v != k0 && (sorted ==> Less(v, k0)) {
      assert VisitedBefore(t, sorted, b, v, w.cur[0]);
    }
    OneMore(visited, k0, sorted);
    forall i | 0 <= i < |w.stack| ensures Behind(t, k0, w.stack[i].node) {
      assert Before(t, b, w.stack[i].node) && Region(t, b, k0);
    }
    forall v, i | v in visited' && 0 <= i < |w'.stack| ensures Behind(t, v, w'.stack[i].node) {
      assert v != k0 ==> Behind(t, v, w.stack[i].node);
    }
    forall v, e | v in visited' && e in w'.cur ensures VisitedBefore(t, sorted, b, v, e) {
      if v == k0 {
        CurrentIsFirst(t, sorted, w, e);
      } else {
        assert VisitedBefore(t, sorted, b, v, e);
      }
    }
  }

  lemma CurrentIsFirst(t: Tree, sorted: bool, w: Walk, e: Bytes)
    requires w.cur != [] && HereOk(t, sorted, w) && e in w.cur[1..]
    ensures VisitedBefore(t, sorted, w.bucket, Current(t, w), e)
  {
    var j :| 0 <= j < |w.cur| - 1 && w.cur[1..][j] == e;
    assert w.cur[j + 1] == e;
    var p := t.at[w.bucket];
    assert (p + w.cur[0])[|p|..] == w.cur[0] && (p + e)[|p|..] == e;
    LessBehind(p, w.cur[0], e);
  }

  lemma NextStep(t: Tree, m: map<Bytes, Value>, sorted: bool, w: Walk, visited: seq<Bytes>)
    requires Walking(t, m, sorted, w, visited) && w.cur != []
    ensures Current(t, w) in m && Current(t, w) !in visited
    ensures Walking(t, m, sorted, w.(cur := w.cur[1..]), visited + [Current(t, w)])
  {
    var w', k0 := w.(cur := w.cur[1..]), Current(t, w);
    CurrentIsStored(t, m, sorted, w);
    NextVisited(t, m, sorted, w, visited);
    assert k0 in visited ==> VisitedBefore(t, sorted, w.bucket, k0, w.cur[0]);
    forall k | k in m ensures k in visited + [k0] || ToCome(t, w', k) {
      assert k in visited || ToCome(t, w, k);
      if k !in visited && k != k0 {
        StillToCome(t, w, k);
      }
    }
  }

  lemma StillToCome(t: Tree, w: Walk, k: Bytes)
    requires w.cur != [] && w.bucket in t.at && ToCome(t, w, k) && k != Current(t, w)
    ensures ToCome(t, w.(cur := w.cur[1..]), k)
  {
    var w', p := w.(cur := w.cur[1..]), t.at[w.bucket];
    if p <= k && k[|p|..] in w.cur {
      assert p + k[|p|..] == k;
      assert k[|p|..] in w'.cur;
    } else {
      var i :| 0 <= i < |w.stack| && Region(t, w.stack[i].node, k);
      assert Region(t, w'.stack[i].node, k);
    }
  }

  /** At the end every stored key was visited once, and in order if that was asked for. */
  lemma AllVisited(t: Tree, m: map<Bytes, Value>, sorted: bool, w: Walk, visited: seq<Bytes>)
    requires Walking(t, m, sorted, w, visited) && w.cur == [] && w.stack == []
    ensures Listing(visited, m.Keys, sorted)
  {
    forall k | k in m ensures k in visited { assert !ToCome(t, w, k); }
  }

  // ---- the iterator --------------------------------------------------------------------------------------

  class HattrieIter {
    const nodes: map<Id, Shell>
    const sorted: bool
    /** The packed slots and the size of the table of each bucket. */
    const hash: AhTable.Hash
    const slotsOf: map<Id, Slots>
    const sizeOf: map<Id, nat>
    ghost const listsOf: map<Id, Lists>
    ghost const t: Tree
    ghost const m: map<Bytes, Value>
    var key: Bytes
    var level: nat
    var bucket: Id
    /** The keys and the values that the iterator over the bucket is still to give. */
    var cur: seq<Bytes>
    var vals: seq<Value>
    var stack: seq<Item>
    /** The keys left behind so far. */
    ghost var visited: seq<Bytes>

    ghost function W(): Walk reads this {
      Walk(key, level, bucket, cur, stack)
    }

    ghost predicate Reads() reads this {
      AllReadAs(t.h, nodes, hash, slotsOf, sizeOf, listsOf)
    }

    ghost predicate Valid() reads this {
      && Reads() && Walking(t, m, sorted, W(), visited)
      && (cur != [] ==> t.IsBucket(bucket) && ValuesOk(t.h[bucket].table, cur, vals))
    }

    // Between two calls the iterator stands at an entry, or it has finished.
    ghost predicate Ready() reads this {
      Valid() && (cur == [] ==> stack == [])
    }

    /** hattrie_iter_begin on a trie that does not change meanwhile. */
    constructor (a: Hattrie, inOrder: bool)
      requires a.Valid()
      ensures Ready() && m == a.M() && visited == [] && sorted == inOrder
    {
      var slots, sizes;
      ghost var lists;
      slots, sizes, lists := a.buckets.Share();
      WorldFacts(a.w, a.maxBucketSize);
      nodes, t, m, sorted := a.nodes, a.T(), a.M(), inOrder;
      hash, slotsOf, sizeOf, listsOf := a.buckets.hash, slots, sizes, lists;
      key := seq(16, _ => 0);
      level, bucket, cur, vals := 0, a.root, [], [];
      stack := [Item(0, 0, a.root)];
      visited := [];
      new;
      forall x | x in t.h ensures ReadAs(t.h, nodes, hash, slotsOf, sizeOf, listsOf, x) {
        assert t.h[x].Bucket? ==> x in a.w.contents;
      }
      StartWalks(t, m, sorted, key);
      Continue();
    }

    method PushChar(lev: nat, c: byte)
      requires |key| > 0 && lev <= |key| + 1
      modifies this
      ensures Pushed(old(key), key, lev, c) && level == lev && |key| > 0
      ensures cur == old(cur) && stack == old(stack) && bucket == old(bucket) && visited == old(visited)
    {
      ghost var before := key;
      if |key| < lev {
        key := key + seq(|key|, _ => 0);
      }
      if lev > 0 {
        key := key[lev - 1 := c];
        assert key[..lev] == before[..lev - 1] + [c];
      }
      level := lev;
    }

    method NextNode()
      requires Valid() && cur == [] && stack != []
      modifies this
      ensures Valid() && visited == old(visited)
      ensures |Left(t, stack)| < |Left(t, old(stack))|
    {
      ghost var w := W();
      var item := stack[0];
      ItemFacts(t, key, stack);
      assert ReadAs(t.h, nodes, hash, slotsOf, sizeOf, listsOf, item.node);
      stack := stack[1..];
      if nodes[item.node].TrieNode? {
        PushChar(item.level, item.c);
        PushKids(item);
        TrieStep(t, m, sorted, w, W(), visited);
      } else {
        EnterBucket(item, w);
        BucketStep(t, m, sorted, w, W(), visited);
      }
      LessIsLeft(t, w.key, w.stack, stack);
    }

    method EnterBucket(item: Item, ghost w: Walk)
      requires Reads() && t.IsBucket(item.node) && item.level > 0
      requires |key| > 0 && item.level <= |key| + 1 && w.stack == [item] + stack && w.key == key && cur == []
      modifies this
      ensures Entered(t, w, W()) && visited == old(visited)
      ensures Listing(cur, t.h[bucket].table.Keys, sorted) && ValuesOk(t.h[bucket].table, cur, vals)
    {
      assert ReadAs(t.h, nodes, hash, slotsOf, sizeOf, listsOf, item.node);
      if nodes[item.node].pure {
        PushChar(item.level, item.c);
      } else {
        level := item.level - 1;
      }
      bucket := item.node;
      ghost var table := t.h[bucket].table;
      var es := EntriesOf(hash, slotsOf[bucket], sizeOf[bucket], sorted, listsOf[bucket], table);
      cur, vals := KeysOf(es), ValuesOf(es);
      forall i | 0 <= i < |es| ensures cur[i] in table && vals[i] == table[cur[i]] && |vals[i]| == VALUE_SIZE {
        assert es[i] in es;
      }
    }

    /** Pushes the children of a trie node from right to left, a run of equal pointers once. */
    method PushKids(item: Item)
      requires Reads() && t.IsTrie(item.node) && |t.h[item.node].xs| == NODE_CHILDS
      modifies this`stack
      ensures stack == AllKids(t, item) + old(stack)
    {
      ghost var rest := stack;
      assert ReadAs(t.h, nodes, hash, slotsOf, sizeOf, listsOf, item.node);
      var xs := nodes[item.node].xs;
      var j := |xs|;
      while j > 0
        invariant 0 <= j <= |xs|
        invariant stack == Kids(xs, item.level + 1, |xs| - j) + rest
      {
        j := j - 1;
        if !(j < NODE_MAXCHAR && xs[j] == xs[j + 1]) {
          stack := [Item(j, item.level + 1, xs[j])] + stack;
        }
      }
    }

    method Continue()
      requires Valid()
      modifies this
      ensures Ready() && visited == old(visited)
    {
      while cur == [] && stack != []
        invariant Valid() && visited == old(visited)
        decreases |Left(t, stack)|
      {
        NextNode();
      }
    }

    method Finished() returns (r: bool)
      requires Ready()
      ensures r <==> cur == []
      ensures r ==> Listing(visited, m.Keys, sorted)
    {
      if cur == [] {
        AllVisited(t, m, sorted, W(), visited);
      }
      r := stack == [] && cur == [];
    }

    method Next()
      requires Ready() && cur != []
      modifies this
      ensures Ready() && old(W()).bucket in t.at && visited == old(visited) + [old(Current(t, W()))]
    {
      ghost var w := W();
      NextStep(t, m, sorted, w, visited);
      visited := visited + [Current(t, w)];
      cur, vals := cur[1..], vals[1..];
      Continue();
    }

    /** The key at which the iterator stands, put together in the buffer. */
    method Key() returns (k: Bytes)
      requires Ready() && cur != []
      modifies this`key
      ensures Ready() && W() == old(W()).(key := key)
      ensures bucket in t.at && k == Current(t, W()) && k in m && k !in visited
    {
      ghost var w := W();
      NextStep(t, m, sorted, w, visited);
      var sub := cur[0];
      key := PutBehind(key, level, sub);
      k := key[..level + |sub|];
      KeyStep(t, m, sorted, w, W(), visited);
    }

    method Val() returns (v: Value)
      requires Ready() && cur != []
      ensures bucket in t.at && Current(t, W()) in m && v == m[Current(t, W())] && |v| == VALUE_SIZE
    {
      CurrentIsStored(t, m, sorted, W());
      v := vals[0];
    }
  }

  /** The buffer, doubled until there is room, with sub and a NUL behind the first level bytes. */
  method PutBehind(buffer: Bytes, level: nat, sub: Bytes) returns (r: Bytes)
    requires |buffer| > 0 && level <= |buffer|
    ensures |r| > level + |sub| && r[..level] == buffer[..level] && r[..level + |sub|] == buffer[..level] + sub
  {
    r := buffer;
    var desired := level + |sub| + 1;
    while |r| < desired
      invariant |r| >= |buffer| && r[..|buffer|] == buffer
      decreases desired - |r|
    {
      r := r + seq(|r|, _ => 0);
    }
    assert r[..level] == r[..|buffer|][..level];
    r := r[..level] + sub + [0] + r[level + |sub| + 1..];
  }

  lemma ItemFacts(t: Tree, key: Bytes, stack: seq<Item>)
    requires t.Shape() && stack != [] && StackOk(t, key, stack)
    ensures var item := stack[0];
            && item.node in t.h && item.level <= |key| + 1
            && (t.h[item.node].Bucket? ==> item.level > 0)
            && (t.h[item.node].Trie? ==> |t.h[item.node].xs| == NODE_CHILDS)
  {
    assert ItemOk(t, key, stack[0]);
    if t.h[stack[0].node].Trie? {
      assert t.TrieOk(stack[0].node);
    }
  }

  // What is written behind the way to the current bucket does not touch any way that is still needed.
  lemma KeyStep(t: Tree, m: map<Bytes, Value>, sorted: bool, w: Walk, w': Walk, visited: seq<Bytes>)
    requires Walking(t, m, sorted, w, visited) && w.cur != [] && w' == w.(key := w'.key)
    requires |w'.key| >= w.level && |w'.key| > 0 && w'.key[..w.level] == w.key[..w.level]
    ensures Walking(t, m, sorted, w', visited)
  {
    forall i | 0 <= i < |w'.stack| ensures ItemOk(t, w'.key, w'.stack[i]) {
      assert ItemOk(t, w.key, w.stack[i]) && Before(t, w.bucket, w.stack[i].node);
      if w.stack[i].level > 0 {
        var n := w.stack[i].level - 1;
        assert w'.key[..n] == w'.key[..w.level][..n] == w.key[..n];
      }
    }
    forall k | k in m ensures k in visited || ToCome(t, w', k) {
      if ToCome(t, w, k) && !(t.at[w.bucket] <= k && k[|t.at[w.bucket]|..] in w.cur) {
        var i :| 0 <= i < |w.stack| && Region(t, w.stack[i].node, k);
        assert Region(t, w'.stack[i].node, k);
      }
    }
  }

  /** b is a, as far as it was copied. */
  ghost predicate Copied(a: map<Bytes, Value>, b: map<Bytes, Value>, visited: seq<Bytes>) {
    b.Keys <= a.Keys && (forall k :: k in visited <==> k in b) && forall k :: k in b ==> b[k] == a[k]
  }

  lemma CopiedAll(a: map<Bytes, Value>, b: map<Bytes, Value>, visited: seq<Bytes>, sorted: bool)
    requires Copied(a, b, visited) && Listing(visited, a.Keys, sorted)
    ensures b == a
  {
  }

  predicate TooLong(k: Bytes) { |k| > SlotBytes.MAX_KEY }

  ghost predicate SomeTooLong(m: map<Bytes, Value>) {
    exists k :: k in m && TooLong(k)
  }

  // The entry at which an iterator stands.
  ghost predicate StandsAt(iter: HattrieIter, k: Bytes) reads iter {
    && iter.Ready() && iter.cur != [] && iter.bucket in iter.t.at && k == Current(iter.t, iter.W())
    && k in iter.m && k !in iter.visited && ValidKey(k)
  }

  method Entry(iter: HattrieIter) returns (k: Bytes, v: Value)
    requires iter.Ready() && iter.cur != []
    modifies iter
    ensures StandsAt(iter, k) && v == iter.m[k] && |v| == VALUE_SIZE && iter.visited == old(iter.visited)
  {
    k := iter.Key();
    v := iter.Val();
    assert iter.t.KeyOk(k);
  }

  // The loop of array_dup between two rounds.
  ghost predicate Copying(iter: HattrieIter, b: Hattrie, done: bool)
    reads iter, b, b.buckets, b.buckets.has.repr
  {
    iter.Ready() && (done <==> iter.cur == []) && b.Valid() && Copied(iter.m, b.M(), iter.visited)
  }

  // The entry k is copied, and the iterator still stands at it.
  ghost predicate CopiedOne(iter: HattrieIter, b: Hattrie, k: Bytes)
    reads iter, b, b.buckets, b.buckets.has.repr
  {
    StandsAt(iter, k) && b.Valid() && Copied(iter.m, b.M(), iter.visited + [k])
  }

  // One round of the loop of array_dup; not ok if the program ends.
  method CopyEntry(iter: HattrieIter, b: Hattrie) returns (ok: bool, done: bool)
    requires Copying(iter, b, false)
    modifies iter, b, b.buckets, b.buckets.has.repr
    ensures fresh(b.buckets.has.repr - old(b.buckets.has.repr))
    ensures !ok || Copying(iter, b, done)
    ensures ok || SomeTooLong(iter.m)
    ensures ok ==> |iter.visited| == old(|iter.visited|) + 1
  {
    ghost var k;
    ok, k := CopyCurrent(iter, b);
    done := false;
    if ok {
      done := Forward(iter, b, k);
    }
  }

  method Forward(iter: HattrieIter, b: Hattrie, ghost k: Bytes) returns (done: bool)
    requires CopiedOne(iter, b, k)
    modifies iter
    ensures Copying(iter, b, done) && |iter.visited| == old(|iter.visited|) + 1
  {
    iter.Next();
    done := iter.Finished();
  }

  // The entry at which the iterator stands is copied.
  method CopyCurrent(iter: HattrieIter, b: Hattrie) returns (ok: bool, ghost k: Bytes)
    requires Copying(iter, b, false)
    modifies iter, b, b.buckets, b.buckets.has.repr
    ensures fresh(b.buckets.has.repr - old(b.buckets.has.repr)) && iter.visited == old(iter.visited)
    ensures !ok || CopiedOne(iter, b, k)
    ensures ok || SomeTooLong(iter.m)
  {
    var key, v := Entry(iter);
    k := key;
    ok := PutCopy(iter, b, key, v);
  }

  method PutCopy(iter: HattrieIter, b: Hattrie, k: Bytes, v: Value) returns (ok: bool)
    requires StandsAt(iter, k) && v == iter.m[k] && |v| == VALUE_SIZE && b.Valid()
             && Copied(iter.m, b.M(), iter.visited)
    modifies b, b.buckets, b.buckets.has.repr
    ensures fresh(b.buckets.has.repr - old(b.buckets.has.repr))
    ensures !ok || CopiedOne(iter, b, k)
    ensures ok || SomeTooLong(iter.m)
  {
    OneCopied(iter.m, b.M(), iter.visited, k);
    ghost var node;
    ok, node := b.Set(k, v);
    if !ok {
      assert TooLong(k);
    }
  }

  lemma OneCopied(a: map<Bytes, Value>, b: map<Bytes, Value>, visited: seq<Bytes>, k: Bytes)
    requires Copied(a, b, visited) && k in a && k !in visited
    ensures Copied(a, b[k := a[k]], visited + [k])
  {
  }

  lemma {:induction false} NoMoreThan(s: seq<Bytes>, keys: set<Bytes>)
    requires Distinct(s) && forall k :: k in s ==> k in keys
    ensures |s| <= |keys|
  {
    if |s| > 0 {
      var n := |s| - 1;
      assert s[n] in s;
      NoMoreThan(s[..n], keys - {s[n]});
    }
  }

  lemma VisitedFew(iter: HattrieIter)
    requires iter.Ready()
    ensures |iter.visited| <= |iter.m|
  {
    NoMoreThan(iter.visited, iter.m.Keys);
  }

  method CopyAll(iter: HattrieIter, b: Hattrie) returns (ok: bool)
    requires iter.Ready() && iter.visited == [] && b.Valid() && b.M() == map[]
    modifies iter, b, b.buckets, b.buckets.has.repr
    ensures if ok then b.Valid() && b.M() == iter.m else SomeTooLong(iter.m)
  {
    ok := true;
    var done := iter.Finished();
    while !done
      invariant ok && fresh(b.buckets.has.repr - old(b.buckets.has.repr))
      invariant !ok || Copying(iter, b, done)
      decreases |iter.m| - |iter.visited|
    {
      VisitedFew(iter);
      ok, done := CopyEntry(iter, b);
      if !ok {
        return;
      }
    }
    done := iter.Finished();
    CopiedAll(iter.m, b.M(), iter.visited, iter.sorted);
  }

  /**
    The copy of a map made by array_dup is equal to it; the program can end only if a key is longer than a bucket's part
    may be.
   */
  method ArrayDup(a: Hattrie, max: nat, hash: AhTable.Hash) returns (ok: bool, b: Hattrie)
    requires a.Valid() && max >= 2
    ensures if ok then b.Valid() && b.M() == a.M() && fresh(b) else SomeTooLong(a.M())
  {
    var iter := new HattrieIter(a, false);
    b := new Hattrie(max, hash);
    ok := CopyAll(iter, b);
  }
}
