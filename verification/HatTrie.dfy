/**
  The HAT-trie map of lib/hat-trie/src/hat-trie.c, as this repository uses it (assoc_array.h): trie nodes, and
  buckets that are the array hash tables of AhTable.
 */
module HatTrie {
  import AhTable
  import SlotBytes
  import opened Basics
  import opened TrieBuckets
  import opened TrieShape
  import opened TrieSteps

  // ---- the trie ----------------------------------------------------------------------------------

  ghost predicate Bounded(t: Tree, max: nat) {
    forall x :: t.IsBucket(x) ==> |t.h[x].table| <= max
  }

  lemma Child(t: Tree, p: Id, c: byte)
    requires t.Shape() && t.IsTrie(p)
    ensures t.TrieOk(p) && t.ChildOk(p, c) && t.HangsOk(t.h[p].xs[c])
    ensures t.IsBucket(t.h[p].xs[c]) ==> t.up[t.h[p].xs[c]] == p
  {
    assert t.TrieOk(p) && t.ChildOk(p, c);
    var x := t.h[p].xs[c];
    assert t.HangsOk(x);
    if t.IsBucket(x) {
      assert t.TrieOk(t.up[x]) && t.ChildOk(t.up[x], t.Edge(x));
      if t.h[x].pure {
        OnlyParentLeadsTo(t, x, p, c);
      } else {
        OnlyRunLeadsTo(t, x, p, c);
      }
    }
  }

  lemma KeyIsNotConsumed(t: Tree, p: Id, key: Bytes)
    requires t.Shape() && t.IsTrie(p) && ValidKey(key) && p in t.at && t.at[p] <= key
    ensures |t.at[p]| < |key|
  {
    assert t.TrieOk(p);
    if t.at[p] == key {
      assert key[|key| - 1] == 0;
    }
  }

  /** The search for a key stands at trie node p, with key[..i] behind it, and looks at node. */
  ghost predicate Cursor(t: Tree, key: Bytes, p: Id, i: nat, node: Id) {
    && t.IsTrie(p) && p in t.at && i < |key| && t.at[p] == key[..i] && |t.h[p].xs| == NODE_CHILDS
    && node == t.h[p].xs[key[i]] && node in t.h
  }

  lemma CursorStart(t: Tree, key: Bytes, p: Id, i: nat)
    requires t.Shape() && t.IsTrie(p) && p in t.at && i < |key| && t.at[p] == key[..i]
    ensures |t.h[p].xs| == NODE_CHILDS && Cursor(t, key, p, i, t.h[p].xs[key[i]])
  {
    Child(t, p, key[i]);
  }

  lemma CursorStep(t: Tree, key: Bytes, p: Id, i: nat, node: Id)
    requires t.Shape() && ValidKey(key) && Cursor(t, key, p, i, node) && t.IsTrie(node)
    ensures i + 1 < |key| && |t.h[node].xs| == NODE_CHILDS && Cursor(t, key, node, i + 1, t.h[node].xs[key[i + 1]])
  {
    Child(t, p, key[i]);
    assert t.at[node] == key[..i + 1];
    KeyIsNotConsumed(t, node, key);
    Child(t, node, key[i + 1]);
  }

  lemma CursorEnd(t: Tree, key: Bytes, p: Id, i: nat, node: Id)
    requires t.Shape() && ValidKey(key) && Cursor(t, key, p, i, node) && (t.IsBucket(node) || |key| - i <= 1)
    ensures t.IsBucket(node) && t.Covers(node, key)
    ensures key[|t.at[node]|..] == if t.h[node].pure then key[i + 1..] else key[i..]
  {
    Child(t, p, key[i]);
  }

  /** What every operation keeps: the nodes store m, no bucket is over its bound, and numbers from next on are free. */
  ghost predicate Good(t: Tree, m: map<Bytes, Value>, max: nat, next: Id) {
    && t.Stores(m) && max >= 2 && Bounded(t, max)
    && forall x :: x in t.h ==> x < next
  }

  ghost function Tries(m: map<Bytes, Value>, max: nat, next: Id): iset<Tree> {
    iset t: Tree | Good(t, m, max, next)
  }

  /** The search for key has ended at bucket node, which stores the rest of the key. */
  ghost predicate Found(t: Tree, key: Bytes, p: Id, i: nat, node: Id) {
    && Cursor(t, key, p, i, node) && t.IsBucket(node) && t.Covers(node, key)
    && key[|t.at[node]|..] == if t.h[node].pure then key[i + 1..] else key[i..]
  }

  /** What the source keeps of a node: the pointers of a trie node, or the flag and range of a bucket. */
  datatype Shell = TrieNode(xs: seq<Id>) | BucketNode(pure: bool, c0: byte, c1: byte)

  function ShellOf(n: Node): Shell {
    match n
    case Trie(xs) => TrieNode(xs)
    case Bucket(pure, c0, c1, _) => BucketNode(pure, c0, c1)
  }

  function Shells(h: map<Id, Node>): map<Id, Shell> {
    map x | x in h :: ShellOf(h[x])
  }

  function Contents(h: map<Id, Node>): map<Id, map<Bytes, Value>> {
    map x | x in h && h[x].Bucket? :: h[x].table
  }

  /** A trie as its fields and its tables have it, with the tree that it is and the map that it stores. */
  datatype World = World(nodes: map<Id, Shell>, contents: map<Id, map<Bytes, Value>>, root: Id, next: Id, size: nat,
                         t: Tree, stored: map<Bytes, Value>)
  {
    ghost predicate Ok(max: nat) {
      && t in Tries(stored, max, next) && size == |stored| && root == t.root
      && nodes == Shells(t.h) && contents == Contents(t.h)
    }

    /** Bucket b has another table, and the trie stores another map. */
    function WithBucket(b: Id, table: map<Bytes, Value>, m: map<Bytes, Value>): World
      requires t.IsBucket(b)
    {
      this.(contents := contents[b := table], t := WithTable(t, b, table), stored := m, size := |m|)
    }

    /** Bucket x hangs below p, and the next two numbers are free. */
    predicate CanSplit(p: Id, x: Id) {
      && t.IsBucket(x) && x in t.up && t.up[x] == p && t.IsTrie(p) && x in t.at && |t.h[p].xs| == NODE_CHILDS
      && p in nodes && nodes[p] == ShellOf(t.h[p]) && x in nodes && nodes[x] == ShellOf(t.h[x])
      && x in contents && contents[x] == t.h[x].table && next !in contents && next + 1 !in contents
    }

    function PureSplit(p: Id, x: Id): World
      requires CanSplit(p, x)
    {
      this.(nodes := nodes[p := TrieNode(nodes[p].xs[nodes[x].c0 := next])]
                       [next := TrieNode(seq(NODE_CHILDS, _ => x))][x := BucketNode(false, 0, NODE_MAXCHAR)],
            next := next + 1, t := SplitPure(t, x, next))
    }

    function HybridSplit(p: Id, x: Id, j: byte, left: map<Bytes, Value>, right: map<Bytes, Value>): World
      requires CanSplit(p, x) && nodes[x].c0 <= j < nodes[x].c1
    {
      var BucketNode(_, c0, c1) := nodes[x];
      this.(nodes := (nodes - {x})[p := TrieNode(SplitRun(nodes[p].xs, c0, j, c1, next, next + 1))]
                       [next := NewShell(c0, j)][next + 1 := NewShell(j + 1, c1)],
            contents := (contents - {x})[next := left][next + 1 := right],
            next := next + 2, t := SplitHybrid(t, x, j, New(next, left), New(next + 1, right)))
    }
  }

  ghost function Worlds(max: nat): iset<World> {
    iset w: World | w.Ok(max)
  }

  function NewShell(c0: byte, c1: byte): Shell {
    BucketNode(c0 == c1, c0, c1)
  }

  class Hattrie {
    const maxBucketSize: nat
    const buckets: Buckets
    var nodes: map<Id, Shell>
    var root: Id
    var m: nat
    var next: Id
    /** What the fields and tables are, as a tree and as a map. */
    ghost var w: World

    /** The tree. */
    ghost function T(): Tree reads this { w.t }

    /** The map that is stored. */
    ghost function M(): map<Bytes, Value> reads this { w.stored }

    ghost predicate Fits() reads this, buckets, buckets.has.repr {
      && buckets.Valid() && buckets.has.contents == w.contents && nodes == w.nodes && root == w.root && next == w.next
         && m == w.size
    }

    ghost predicate Valid() reads this, buckets, buckets.has.repr {
      Fits() && w in Worlds(maxBucketSize)
    }

    constructor (max: nat, hash: AhTable.Hash)
      requires max >= 2
      ensures Valid() && M() == map[] && maxBucketSize == max && fresh(buckets) && fresh(buckets.has.repr)
    {
      maxBucketSize := max;
      root, m, next := 0, 0, 2;
      var b := new Buckets(hash, 1);
      buckets := b;
      nodes := map[0 := TrieNode(seq(NODE_CHILDS, _ => 1)), 1 := BucketNode(false, 0, NODE_MAXCHAR)];
      w := World(nodes, map[1 := map[]], 0, 2, 0, NewTree(), map[]);
      new;
      NewIsOk(max);
    }

    /** Follows the key down to the bucket that covers it. */
    method Consume(key: Bytes, p0: Id, i0: nat, brk: nat) returns (p: Id, i: nat, node: Id)
      requires T().Shape() && nodes == Shells(T().h) && ValidKey(key) && brk <= 1
      requires T().IsTrie(p0) && p0 in T().at && i0 < |key| && T().at[p0] == key[..i0]
      ensures i0 <= i && Found(T(), key, p, i, node)
      ensures if i == i0 then p == p0 else |T().h[p0].xs| == NODE_CHILDS && T().IsTrie(T().h[p0].xs[key[i0]])
    {
      ghost var t := T();
      p, i := p0, i0;
      CursorStart(t, key, p, i);
      node := nodes[p].xs[key[i]];
      while nodes[node].TrieNode? && |key| - i > brk
        invariant i0 <= i && Cursor(t, key, p, i, node)
        invariant if i == i0 then p == p0 else |t.h[p0].xs| == NODE_CHILDS && t.IsTrie(t.h[p0].xs[key[i0]])
        decreases |key| - i
      {
        CursorStep(t, key, p, i, node);
        i := i + 1;
        p := node;
        node := nodes[p].xs[key[i]];
      }
      CursorEnd(t, key, p, i, node);
    }

    /**
      A pure bucket gets a trie node of its own; an entry for that node, which none of these keys has, would move there.
     */
    method SplitPureBucket(p: Id, x: Id)
      requires Fits() && w.CanSplit(p, x) && [] !in w.contents[x]
      modifies this`nodes, this`next, this`w
      ensures Fits() && w == old(w).PureSplit(p, x)
    {
      var val := buckets.TryGet(x, []);
      assert val == None;
      w := w.PureSplit(p, x);
      nodes := nodes[p := TrieNode(nodes[p].xs[nodes[x].c0 := next])][next := TrieNode(seq(NODE_CHILDS, _ => x))]
                [x := BucketNode(false, 0, NODE_MAXCHAR)];
      next := next + 1;
    }

    /** A hybrid bucket is cut in two. */
    method SplitHybridBucket(p: Id, x: Id) returns (ghost j: byte, ghost left: New, ghost right: New)
      requires Fits() && w.CanSplit(p, x) && w.nodes[x].c0 < w.nodes[x].c1
      requires InRange(w.contents[x], w.nodes[x].c0, w.nodes[x].c1)
      modifies this`nodes, this`next, this`w, buckets
      ensures Fits() && fresh(buckets.has.repr - old(buckets.has.repr))
      ensures old(w).nodes[x].c0 <= j < old(w).nodes[x].c1 && left.id == old(w).next && right.id == old(w).next + 1
      ensures w == old(w).HybridSplit(p, x, j, left.part, right.part)
      ensures AreParts(old(w).t, x, j, left, right) && FirstOnly(left.part, old(w).nodes[x].c0, j)
    {
      var c0, c1 := nodes[x].c0, nodes[x].c1;
      var l, r := next, next + 1;
      var cut := buckets.SplitTable(x, l, r, c0, c1);
      j, left, right := cut, New(l, buckets.has.contents[l]), New(r, buckets.has.contents[r]);
      var xs := SplitRun(nodes[p].xs, c0, cut, c1, l, r);
      Rewire((nodes - {x})[p := TrieNode(xs)][l := NewShell(c0, cut)][r := NewShell(cut + 1, c1)],
             w.HybridSplit(p, x, j, left.part, right.part));
    }

    // The nodes after a split.
    method Rewire(nodes': map<Id, Shell>, ghost w': World)
      requires buckets.Valid() && buckets.has.contents == w'.contents && nodes' == w'.nodes
      requires root == w'.root && next + 2 == w'.next && m == w'.size
      modifies this`nodes, this`next, this`w
      ensures Fits() && w == w'
    {
      nodes := nodes';
      next := next + 2;
      w := w';
    }

    /** One split of the bucket under the search for key; the map is kept and the search comes nearer to its end. */
    method Split(key: Bytes, p: Id, i: nat, x: Id)
      requires Valid() && ValidKey(key) && Cursor(T(), key, p, i, x) && T().IsBucket(x)
               && |T().h[x].table| >= maxBucketSize
      modifies this`nodes, this`next, this`w, buckets
      ensures Valid() && M() == old(M()) && fresh(buckets.has.repr - old(buckets.has.repr))
      ensures Nearer(T(), key, p, i, Width(old(T()).h[x]))
    {
      WorldReady(w, maxBucketSize, key, p, i, x);
      if nodes[x].pure {
        PureSplitKeeps(w, maxBucketSize, key, p, i, x);
        SplitPureBucket(p, x);
      } else {
        ghost var w0 := w;
        ghost var j, l, r := SplitHybridBucket(p, x);
        HybridSplitKeeps(w0, maxBucketSize, key, p, i, x, j, l, r);
      }
    }

    /** The bucket that covers the key and what of the key it stores. */
    method Find(key: Bytes) returns (node: Id, rest: Bytes)
      requires Valid() && ValidKey(key)
      ensures T().Covers(node, key) && rest == key[|T().at[node]|..]
    {
      WorldFacts(w, maxBucketSize);
      var p, i, b := Consume(key, root, 0, 1);
      node := b;
      rest := if nodes[node].pure then key[i + 1..] else key[i..];
    }

    /** The bucket that the search ends at from p on, and the number of its entries. */
    method Locate(key: Bytes, p0: Id, i0: nat) returns (p: Id, i: nat, node: Id, size: nat)
      requires Valid() && ValidKey(key) && T().IsTrie(p0) && p0 in T().at && i0 < |key| && T().at[p0] == key[..i0]
      ensures i0 <= i && Found(T(), key, p, i, node) && size == |T().h[node].table|
      ensures if i == i0 then p == p0 else |T().h[p0].xs| == NODE_CHILDS && T().IsTrie(T().h[p0].xs[key[i0]])
    {
      WorldFacts(w, maxBucketSize);
      p, i, node := Consume(key, p0, i0, 0);
      size := buckets.Size(node);
    }

    // A full bucket is split, and the search goes on.
    method SplitAndLocate(key: Bytes, p0: Id, i0: nat, x: Id) returns (p: Id, i: nat, node: Id, size: nat)
      requires Valid() && ValidKey(key) && Found(T(), key, p0, i0, x) && |T().h[x].table| >= maxBucketSize
      modifies this`nodes, this`next, this`w, buckets
      ensures Valid() && M() == old(M()) && fresh(buckets.has.repr - old(buckets.has.repr))
      ensures Found(T(), key, p, i, node) && size == |T().h[node].table|
      ensures i > i0 || (i == i0 && Width(T().h[node]) < Width(old(T()).h[x]))
    {
      Split(key, p0, i0, x);
      p, i, node, size := Locate(key, p0, i0);
    }

    /** Splits the bucket of the key until it has room. */
    method MakeRoom(key: Bytes) returns (p: Id, i: nat, node: Id)
      requires Valid() && ValidKey(key)
      modifies this`nodes, this`next, this`w, buckets
      ensures Valid() && M() == old(M()) && fresh(buckets.has.repr - old(buckets.has.repr))
      ensures Found(T(), key, p, i, node) && |T().h[node].table| < maxBucketSize
    {
      RootFacts(w, maxBucketSize);
      var size;
      p, i, node, size := Locate(key, root, 0);
      while size >= maxBucketSize
        invariant Valid() && M() == old(M()) && fresh(buckets.has.repr - old(buckets.has.repr))
        invariant Found(T(), key, p, i, node) && size == |T().h[node].table|
        decreases |key| - i, Width(T().h[node])
      {
        p, i, node, size := SplitAndLocate(key, p, i, node);
      }
    }

    /** The value pointer that hattrie_get returns. */
    ghost predicate PointsTo(key: Bytes, node: Id, i: nat, p: nat, j: nat) reads this, buckets, buckets.has.repr {
      T().Covers(node, key) && buckets.PointsTo(node, key[|T().at[node]|..], i, p, j)
    }

    /**
      hattrie_get: a pointer to the value of the key; not ok if the program ends, because the bucket's part is too long.
     */
    method Get(key: Bytes) returns (ok: bool, node: Id, i: nat, p: nat, ghost j: nat)
      requires Valid() && ValidKey(key)
      modifies this, buckets, buckets.has.repr
      ensures Valid() && fresh(buckets.has.repr - old(buckets.has.repr))
      ensures T().Covers(node, key) && (ok <==> |key| - |T().at[node]| <= SlotBytes.MAX_KEY)
      ensures M() == if ok then WithKey(old(M()), key) else old(M())
      ensures ok ==> PointsTo(key, node, i, p, j)
    {
      var q, k;
      q, k, node := MakeRoom(key);
      WorldFacts(w, maxBucketSize);
      var rest := if nodes[node].pure then key[k + 1..] else key[k..];
      GetKeeps(w, maxBucketSize, key, node);
      ghost var w' := w.WithBucket(node, WithKey(w.contents[node], rest), WithKey(w.stored, key));
      ok, i, p, j := GetInBucket(node, rest, w');
    }

    // ahtable_get in a bucket; w' is the world with the key.
    method GetInBucket(node: Id, rest: Bytes, ghost w': World) returns (ok: bool, i: nat, p: nat, ghost j: nat)
      requires Fits() && node in w.contents
      requires w'.nodes == w.nodes && w'.root == w.root && w'.next == w.next
      requires w'.contents == w.contents[node := WithKey(w.contents[node], rest)]
      requires w'.size == w.size + |WithKey(w.contents[node], rest)| - |w.contents[node]|
      requires w.contents[node := w.contents[node]] == w.contents
      modifies this`m, this`w, buckets`has, buckets.has.repr
      ensures Fits() && buckets.has.repr == old(buckets.has.repr)
      ensures w == (if ok then w' else old(w)) && (ok <==> |rest| <= SlotBytes.MAX_KEY)
      ensures ok ==> buckets.PointsTo(node, rest, i, p, j)
    {
      var more;
      ok, i, p, more, j := buckets.Get(node, rest);
      m := m + more;
      if ok {
        w := w';
      }
    }

    /** Writing through the pointer of Get. */
    method Write(ghost key: Bytes, node: Id, i: nat, p: nat, ghost j: nat, v: Value)
      requires Valid() && ValidKey(key) && PointsTo(key, node, i, p, j) && key in M() && |v| == VALUE_SIZE
      modifies this`w, buckets`has, buckets.has.repr
      ensures Valid() && M() == old(M())[key := v] && T().Covers(node, key) && T().at == old(T()).at
      ensures buckets.has.repr == old(buckets.has.repr)
    {
      ghost var rest := key[|T().at[node]|..];
      WriteKeeps(w, maxBucketSize, key, node, v);
      ghost var w' := w.WithBucket(node, w.contents[node][rest := v], w.stored[key := v]);
      buckets.Write(node, rest, i, p, j, v);
      w := w';
    }

    /** Not ok if the program ends: the part of the key that its bucket would store is too long. */
    method Set(key: Bytes, v: Value) returns (ok: bool, ghost node: Id)
      requires Valid() && ValidKey(key) && |v| == VALUE_SIZE
      modifies this, buckets, buckets.has.repr
      ensures Valid() && fresh(buckets.has.repr - old(buckets.has.repr))
      ensures M() == if ok then old(M())[key := v] else old(M())
      ensures T().Covers(node, key) && (ok <==> |key| - |T().at[node]| <= SlotBytes.MAX_KEY)
    {
      var b, i, p;
      ghost var j;
      ok, b, i, p, j := Get(key);
      node := b;
      WithKeyThen(old(M()), key, v);
      if ok {
        Write(key, b, i, p, j, v);
      }
    }

    method TryGet(key: Bytes) returns (r: Option<Value>)
      requires Valid() && ValidKey(key)
      ensures r == if key in M() then Some(M()[key]) else None
    {
      WorldFacts(w, maxBucketSize);
      var node, rest := Find(key);
      T().CoverDecides(node, key, M());
      r := buckets.TryGet(node, rest);
    }

    method Del(key: Bytes) returns (r: int)
      requires Valid() && ValidKey(key)
      modifies this`m, this`w, buckets`has, buckets.has.repr
      ensures Valid() && M() == old(M()) - {key} && r == if key in old(M()) then 0 else -1
    {
      var node, rest := Find(key);
      DelKeeps(w, maxBucketSize, key, node);
      r := DelInBucket(node, rest, w.WithBucket(node, w.contents[node] - {rest}, w.stored - {key}));
    }

    // ahtable_del in a bucket; w' is the world without the key.
    method DelInBucket(node: Id, rest: Bytes, ghost w': World) returns (r: int)
      requires Fits() && node in w.contents
      requires w'.nodes == w.nodes && w'.root == w.root && w'.next == w.next
      requires w'.contents == w.contents[node := w.contents[node] - {rest}]
      requires w'.size == w.size - (|w.contents[node]| - |w.contents[node] - {rest}|)
      modifies this`m, this`w, buckets`has, buckets.has.repr
      ensures Fits() && w == w' && r == if rest in old(w).contents[node] then 0 else -1
    {
      var less;
      r, less := buckets.Del(node, rest);
      m := m - less;
      w := w';
    }

    method Size() returns (n: nat)
      requires Valid()
      ensures n == |M()|
    {
      WorldFacts(w, maxBucketSize);
      n := m;
    }
  }

  // ---- what the operations keep ----------------------------------------------------------------------

  function NewTree(): Tree {
    Tree(map[0 := Trie(seq(NODE_CHILDS, _ => 1)), 1 := Bucket(false, 0, NODE_MAXCHAR, map[])], 0,
         map[0 := [], 1 := []], map[1 := 0])
  }

  lemma NewIsOk(max: nat)
    requires max >= 2
    ensures var nodes := map[0 := TrieNode(seq(NODE_CHILDS, _ => 1)), 1 := BucketNode(false, 0, NODE_MAXCHAR)];
            World(nodes, map[1 := map[]], 0, 2, 0, NewTree(), map[]) in Worlds(max)
  {
    var t := NewTree();
    forall c: byte ensures t.ChildOk(0, c) {}
    assert t.TrieOk(0) && t.HangsOk(1);
  }

  // The table of one bucket changes.
  lemma ContentsAt(h: map<Id, Node>, x: Id, table: map<Bytes, Value>)
    requires x in h && h[x].Bucket?
    ensures Contents(h)[x := table] == Contents(h[x := h[x].(table := table)])
    ensures Shells(h) == Shells(h[x := h[x].(table := table)])
    ensures x in Contents(h) && Contents(h)[x] == h[x].table
  {
  }

  lemma RootFacts(w: World, max: nat)
    requires w in Worlds(max)
    ensures w.t.IsTrie(w.root) && w.root in w.t.at && w.t.at[w.root] == []
  {
  }

  lemma WithKeyThen(m: map<Bytes, Value>, key: Bytes, v: Value)
    ensures key in WithKey(m, key) && WithKey(m, key)[key := v] == m[key := v]
  {
  }

  lemma WorldFacts(w: World, max: nat)
    requires w in Worlds(max)
    ensures w.t.Shape() && w.nodes == Shells(w.t.h) && w.root == w.t.root && w.size == |w.stored|
            && w.t.Stores(w.stored)
    ensures forall b {:trigger b in w.contents} :: w.t.IsBucket(b) ==>
            b in w.contents && w.contents[b] == w.t.h[b].table
  {
  }

  lemma GetKeeps(w: World, max: nat, key: Bytes, b: Id)
    requires w in Worlds(max) && w.t.Covers(b, key) && ValidKey(key) && |w.t.h[b].table| < max
    ensures b in w.contents && w.contents[b] == w.t.h[b].table
    ensures w.contents[b := w.contents[b]] == w.contents
    ensures var rest := key[|w.t.at[b]|..];
            var table, m := WithKey(w.contents[b], rest), WithKey(w.stored, key);
            w.WithBucket(b, table, m) in Worlds(max) && |m| == w.size + |table| - |w.contents[b]|
            && w.WithBucket(b, table, m).t.Covers(b, key)
  {
    var rest := key[|w.t.at[b]|..];
    w.t.CoverDecides(b, key, w.stored);
    ContentsAt(w.t.h, b, WithKey(w.t.h[b].table, rest));
    PutSize(w.t.h[b].table, rest, Zeros());
    PutSize(w.stored, key, Zeros());
    if key in w.stored {
      assert WithTable(w.t, b, w.t.h[b].table) == w.t;
    } else {
      PutGood(w.t, w.stored, max, w.next, b, key, Zeros());
    }
  }

  lemma WriteKeeps(w: World, max: nat, key: Bytes, b: Id, v: Value)
    requires w in Worlds(max) && w.t.Covers(b, key) && ValidKey(key) && key in w.stored
    ensures b in w.contents && w.contents[b] == w.t.h[b].table && |w.stored[key := v]| == w.size
    ensures w.WithBucket(b, w.contents[b][key[|w.t.at[b]|..] := v], w.stored[key := v]) in Worlds(max)
    ensures w.WithBucket(b, w.contents[b][key[|w.t.at[b]|..] := v], w.stored[key := v]).t.Covers(b, key)
  {
    w.t.CoverDecides(b, key, w.stored);
    ContentsAt(w.t.h, b, w.t.h[b].table[key[|w.t.at[b]|..] := v]);
    PutGood(w.t, w.stored, max, w.next, b, key, v);
    PutSize(w.stored, key, v);
  }

  lemma DelKeeps(w: World, max: nat, key: Bytes, b: Id)
    requires w in Worlds(max) && w.t.Covers(b, key)
    ensures b in w.contents && w.contents[b] == w.t.h[b].table
    ensures var table, m := w.contents[b] - {key[|w.t.at[b]|..]}, w.stored - {key};
            w.WithBucket(b, table, m) in Worlds(max) && |m| == w.size - (|w.contents[b]| - |table|)
            && (key[|w.t.at[b]|..] in w.contents[b] <==> key in w.stored)
  {
    var rest := key[|w.t.at[b]|..];
    w.t.CoverDecides(b, key, w.stored);
    ContentsAt(w.t.h, b, w.t.h[b].table - {rest});
    DropGood(w.t, w.stored, max, w.next, b, key);
    DropSize(w.t.h[b].table, rest);
    DropSize(w.stored, key);
  }

  // What a full bucket under the search is like.
  lemma WorldReady(w: World, max: nat, key: Bytes, p: Id, i: nat, x: Id)
    requires w in Worlds(max) && ValidKey(key) && Cursor(w.t, key, p, i, x) && w.t.IsBucket(x)
             && |w.t.h[x].table| >= max
    ensures w.CanSplit(p, x)
    ensures if w.nodes[x].pure then [] !in w.contents[x]
            else w.nodes[x].c0 < w.nodes[x].c1 && InRange(w.contents[x], w.nodes[x].c0, w.nodes[x].c1)
  {
    Ready(w.t, w.stored, max, w.next, key, p, i, x);
    if w.t.h[x].pure {
      NoEmptyEntry(w.t, w.stored, x);
    }
  }

  lemma SplitPureFits(h: map<Id, Node>, p: Id, x: Id, u: Id)
    requires p in h && h[p].Trie? && |h[p].xs| == NODE_CHILDS && x in h && h[x].Bucket? && u !in h
    ensures var xs, ys := h[p].xs[h[x].c0 := u], seq(NODE_CHILDS, _ => x);
            var h' := h[p := Trie(xs)][u := Trie(ys)][x := Bucket(false, 0, NODE_MAXCHAR, h[x].table)];
            && Contents(h') == Contents(h)
            && Shells(h') == Shells(h)[p := TrieNode(xs)][u := TrieNode(ys)][x := BucketNode(false, 0, NODE_MAXCHAR)]
  {
  }

  lemma SplitHybridFits(h: map<Id, Node>, p: Id, x: Id, j: byte, l: New, r: New)
    requires p in h && h[p].Trie? && |h[p].xs| == NODE_CHILDS && x in h && h[x].Bucket? && h[x].c0 <= j < h[x].c1
    requires l.id !in h && r.id !in h && l.id != r.id
    ensures var c0, c1 := h[x].c0, h[x].c1;
            var xs := SplitRun(h[p].xs, c0, j, c1, l.id, r.id);
            var h' := (h - {x})[p := Trie(xs)][l.id := NewBucket(l.part, c0, j)][r.id := NewBucket(r.part, j + 1, c1)];
            && Contents(h') == (Contents(h) - {x})[l.id := l.part][r.id := r.part]
            && Shells(h') == (Shells(h) - {x})[p := TrieNode(xs)][l.id := NewShell(c0, j)][r.id := NewShell(j + 1, c1)]
  {
  }

  lemma PureSplitKeeps(w: World, max: nat, key: Bytes, p: Id, i: nat, x: Id)
    requires w in Worlds(max) && ValidKey(key) && Cursor(w.t, key, p, i, x) && w.t.IsBucket(x)
             && |w.t.h[x].table| >= max
    requires w.t.h[x].pure
    ensures w.CanSplit(p, x)
    ensures w.PureSplit(p, x) in Worlds(max) && w.PureSplit(p, x).stored == w.stored
            && Nearer(w.PureSplit(p, x).t, key, p, i, Width(w.t.h[x]))
  {
    Ready(w.t, w.stored, max, w.next, key, p, i, x);
    SplitPureFits(w.t.h, p, x, w.next);
    PureStep(w.t, SplitPure(w.t, x, w.next), w.stored, max, w.next, w.next + 1, key, p, i, x);
  }

  lemma HybridSplitKeeps(w: World, max: nat, key: Bytes, p: Id, i: nat, x: Id, j: byte, l: New, r: New)
    requires w in Worlds(max) && ValidKey(key) && Cursor(w.t, key, p, i, x) && w.t.IsBucket(x)
             && |w.t.h[x].table| >= max
    requires !w.t.h[x].pure && w.t.h[x].c0 <= j < w.t.h[x].c1
    requires l.id == w.next && r.id == w.next + 1 && AreParts(w.t, x, j, l, r)
    ensures w.CanSplit(p, x)
    ensures var w' := w.HybridSplit(p, x, j, l.part, r.part);
            w' in Worlds(max) && w'.stored == w.stored && Nearer(w'.t, key, p, i, Width(w.t.h[x]))
  {
    WorldReady(w, max, key, p, i, x);
    Ready(w.t, w.stored, max, w.next, key, p, i, x);
    WorldFacts(w, max);
    HybridFits(w, p, x, j, l, r);
    HybridStep(w.t, SplitHybrid(w.t, x, j, l, r), w.stored, max, w.next, w.next + 2, key, p, i, x, j, l, r);
    IsWorld(w.HybridSplit(p, x, j, l.part, r.part), max);
  }

  lemma HybridFits(w: World, p: Id, x: Id, j: byte, l: New, r: New)
    requires w.nodes == Shells(w.t.h) && w.contents == Contents(w.t.h) && l.id !in w.t.h && r.id !in w.t.h
    requires w.CanSplit(p, x) && w.t.h[x].c0 <= j < w.t.h[x].c1 && l.id == w.next && r.id == w.next + 1
    ensures var w' := w.HybridSplit(p, x, j, l.part, r.part);
            w'.t == SplitHybrid(w.t, x, j, l, r) && w'.nodes == Shells(w'.t.h) && w'.contents == Contents(w'.t.h)
  {
    assert New(w.next, l.part) == l && New(w.next + 1, r.part) == r;
    SplitHybridFits(w.t.h, p, x, j, l, r);
  }

  lemma IsWorld(w: World, max: nat)
    requires w.t in Tries(w.stored, max, w.next) && w.size == |w.stored| && w.root == w.t.root
    requires w.nodes == Shells(w.t.h) && w.contents == Contents(w.t.h)
    ensures w in Worlds(max)
  {
  }

  /** The search can go on from p, to a trie node or to a bucket for fewer characters than w says. */
  ghost predicate Nearer(t: Tree, key: Bytes, p: Id, i: nat, w: int)
    requires i < |key|
  {
    && t.IsTrie(p) && p in t.at && t.at[p] == key[..i] && |t.h[p].xs| == NODE_CHILDS && t.h[p].xs[key[i]] in t.h
    && (t.IsTrie(t.h[p].xs[key[i]]) || Width(t.h[t.h[p].xs[key[i]]]) < w)
  }

  // How many characters a bucket is for, offset so that it is never negative.
  function Width(n: Node): nat {
    if n.Bucket? then NODE_CHILDS + n.c1 - n.c0 else 0
  }

  lemma Ready(t: Tree, m: map<Bytes, Value>, max: nat, next: Id, key: Bytes, p: Id, i: nat, x: Id)
    requires t in Tries(m, max, next) && Cursor(t, key, p, i, x) && t.IsBucket(x) && |t.h[x].table| >= max
    ensures x in t.up && t.up[x] == p && x in t.at && x != t.root
    ensures if t.h[x].pure then t.h[x].c0 != 0 && key[i] == t.h[x].c0
            else
              && t.h[x].c0 < t.h[x].c1 && InRange(t.h[x].table, t.h[x].c0, t.h[x].c1)
              && t.h[x].c0 <= key[i] <= t.h[x].c1
  {
    Child(t, p, key[i]);
    assert t.EntriesOk(x, m);
    if t.h[x].pure && t.h[x].c0 == 0 {
      NulHoldsOne(t, m, x);
    }
  }

  lemma PureStep(t: Tree, t': Tree, m: map<Bytes, Value>, max: nat, next: Id, next': Id, key: Bytes, p: Id, i: nat,
                 x: Id)
    requires t in Tries(m, max, next) && t.IsBucket(x) && t.h[x].pure && t.h[x].c0 != 0 && x != t.root
    requires Cursor(t, key, p, i, x) && x in t.up && t.up[x] == p && key[i] == t.h[x].c0
    requires x in t.at && |t.h[p].xs| == NODE_CHILDS && t' == SplitPure(t, x, next) && next' == next + 1
    ensures t' in Tries(m, max, next') && Nearer(t', key, p, i, Width(t.h[x]))
  {
    assert t.HangsOk(x);
    SplitPureStores(t, m, x, next);
    SplitPureBounded(t, x, next, max);
    PureProgress(t, key, p, i, x, next);
  }

  lemma PureProgress(t: Tree, key: Bytes, p: Id, i: nat, x: Id, u: Id)
    requires PureSplittable(t, x, u) && Cursor(t, key, p, i, x) && t.up[x] == p && key[i] == t.h[x].c0
    ensures Nearer(SplitPure(t, x, u), key, p, i, Width(t.h[x]))
  {
  }

  lemma HybridStep(t: Tree, t': Tree, m: map<Bytes, Value>, max: nat, next: Id, next': Id, key: Bytes, p: Id, i: nat,
                   x: Id, j: byte, l: New, r: New)
    requires t in Tries(m, max, next) && t.IsBucket(x) && !t.h[x].pure && t.h[x].c0 <= j < t.h[x].c1 && x != t.root
    requires Cursor(t, key, p, i, x) && x in t.up && t.up[x] == p && t.h[x].c0 <= key[i] <= t.h[x].c1
    requires l.id == next && r.id == next + 1 && AreParts(t, x, j, l, r)
    requires x in t.at && |t.h[p].xs| == NODE_CHILDS && t' == SplitHybrid(t, x, j, l, r) && next' == next + 2
    ensures t' in Tries(m, max, next') && Nearer(t', key, p, i, Width(t.h[x]))
  {
    assert t.HangsOk(x);
    SplitHybridStores(t, m, x, j, l, r);
    SplitHybridBounded(t, x, j, l, r, max);
    HybridProgress(t, key, p, i, x, j, l, r);
  }

  lemma HybridProgress(t: Tree, key: Bytes, p: Id, i: nat, x: Id, j: byte, l: New, r: New)
    requires HybridSplittable(t, x, j, l, r) && Cursor(t, key, p, i, x) && t.up[x] == p
             && t.h[x].c0 <= key[i] <= t.h[x].c1
    ensures Nearer(SplitHybrid(t, x, j, l, r), key, p, i, Width(t.h[x]))
  {
    NewBuckets(t, x, j, l, r);
  }

  lemma PutGood(t: Tree, m: map<Bytes, Value>, max: nat, next: Id, b: Id, k: Bytes, v: Value)
    requires t in Tries(m, max, next) && t.Covers(b, k) && ValidKey(k)
    requires k[|t.at[b]|..] in t.h[b].table || |t.h[b].table| < max
    ensures WithTable(t, b, t.h[b].table[k[|t.at[b]|..] := v]) in Tries(m[k := v], max, next)
  {
    PutStores(t, m, b, k, v);
    var t' := WithTable(t, b, t.h[b].table[k[|t.at[b]|..] := v]);
    forall x | t'.IsBucket(x) ensures |t'.h[x].table| <= max {
      assert t.IsBucket(x);
      PutSize(t.h[b].table, k[|t.at[b]|..], v);
    }
  }

  lemma PutSize(table: map<Bytes, Value>, s: Bytes, v: Value)
    ensures |table[s := v]| == if s in table then |table| else |table| + 1
  {
    assert table[s := v].Keys == table.Keys + {s};
  }

  lemma DropGood(t: Tree, m: map<Bytes, Value>, max: nat, next: Id, b: Id, k: Bytes)
    requires t in Tries(m, max, next) && t.Covers(b, k)
    ensures WithTable(t, b, t.h[b].table - {k[|t.at[b]|..]}) in Tries(m - {k}, max, next)
  {
    DropStores(t, m, b, k);
    var t' := WithTable(t, b, t.h[b].table - {k[|t.at[b]|..]});
    forall x | t'.IsBucket(x) ensures |t'.h[x].table| <= max {
      assert t.IsBucket(x);
      DropSize(t.h[b].table, k[|t.at[b]|..]);
    }
  }

  lemma DropSize(table: map<Bytes, Value>, s: Bytes)
    ensures |table - {s}| == if s in table then |table| - 1 else |table|
  {
    assert (table - {s}).Keys == table.Keys - {s};
  }

  lemma SplitPureBounded(t: Tree, x: Id, u: Id, max: nat)
    requires PureSplittable(t, x, u) && Bounded(t, max)
    ensures Bounded(SplitPure(t, x, u), max)
  {
  }

  lemma SplitHybridBounded(t: Tree, x: Id, j: byte, l: New, r: New, max: nat)
    requires HybridSplittable(t, x, j, l, r) && AreParts(t, x, j, l, r) && Bounded(t, max)
    ensures Bounded(SplitHybrid(t, x, j, l, r), max)
  {
    var t' := SplitHybrid(t, x, j, l, r);
    assert t.TrieOk(t.up[x]);
    PartIsSmall(l.part, t.h[x].table, t.h[x].c0, j);
    PartIsSmall(r.part, t.h[x].table, j + 1, t.h[x].c1);
    NewBuckets(t, x, j, l, r);
    forall b | t'.IsBucket(b) ensures |t'.h[b].table| <= max {
      if b != l.id && b != r.id {
        OtherBuckets(t, x, j, l, r, b);
        assert t.IsBucket(b);
      }
    }
  }

  lemma NothingAfterNul(p: Bytes, e: Bytes)
    requires ValidKey(p + e) && |p| > 0 && p[|p| - 1] == 0
    ensures e == []
  {
    assert (p + e)[|p| - 1] == 0;
  }

  /** A pure bucket under NUL holds at most one entry, so a full one is never split. */
  lemma NulHoldsOne(t: Tree, m: map<Bytes, Value>, x: Id)
    requires t.Stores(m) && t.IsBucket(x) && t.h[x].pure && t.h[x].c0 == 0
    ensures |t.h[x].table| <= 1
  {
    assert t.HangsOk(x) && t.EntriesOk(x, m);
    assert t.TrieOk(t.up[x]) && t.ChildOk(t.up[x], t.h[x].c0);
    var empty: Bytes := [];
    forall e | e in t.h[x].table
      ensures e == empty
    {
      assert t.KeyOk(t.at[x] + e);
      NothingAfterNul(t.at[x], e);
    }
    Subset(t.h[x].table.Keys, {empty});
  }
}
