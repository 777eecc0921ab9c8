/** What one change of the nodes does to the map that a HAT-trie stores. */
module TrieSteps {
  import opened Basics
  import opened TrieShape

  /** The tree with another table in bucket b. */
  function WithTable(t: Tree, b: Id, table: map<Bytes, Value>): Tree
    requires t.IsBucket(b)
  {
    t.(h := t.h[b := t.h[b].(table := table)])
  }

  lemma TableKeepsShape(t: Tree, b: Id, table: map<Bytes, Value>)
    requires t.Shape() && t.IsBucket(b)
    ensures WithTable(t, b, table).Shape()
  {
    var t' := WithTable(t, b, table);
    forall u | t'.IsTrie(u)
      ensures t'.TrieOk(u)
    {
      assert t.TrieOk(u);
      forall c: byte ensures t'.ChildOk(u, c) { assert t.ChildOk(u, c); }
    }
    forall x | x in t'.h && x != t'.root ensures t'.HangsOk(x) { assert t.HangsOk(x); }
    forall u, v | t'.IsTrie(u) && t'.IsTrie(v) ensures t'.Apart(u, v) { assert t.Apart(u, v); }
  }

  lemma EntryIsHeld(t: Tree, x: Id, e: Bytes, m: map<Bytes, Value>)
    requires t.IsBucket(x) && x in t.at && t.EntriesOk(x, m) && e in t.h[x].table
    ensures t.Holds(x, t.at[x] + e) && t.Covers(x, t.at[x] + e)
  {
    assert (t.at[x] + e)[|t.at[x]|..] == e;
    t.HoldsCovers(x, t.at[x] + e, m);
  }

  // An entry of another bucket, or another entry of this one, belongs to another key.
  lemma EntryOfAnotherKey(t: Tree, m: map<Bytes, Value>, b: Id, k: Bytes, x: Id, e: Bytes)
    requires t.Shape() && t.Covers(b, k) && t.IsBucket(x) && x in t.at && t.EntriesOk(x, m) && e in t.h[x].table
    requires x != b || e != k[|t.at[b]|..]
    ensures t.at[x] + e != k
  {
    EntryIsHeld(t, x, e, m);
    assert (t.at[x] + e)[|t.at[x]|..] == e;
    if t.at[x] + e == k {
      t.CoverIsUnique(b, x, k);
    }
  }

  lemma PutEntries(t: Tree, m: map<Bytes, Value>, b: Id, k: Bytes, v: Value, x: Id)
    requires t.Shape() && t.Covers(b, k) && t.IsBucket(x) && t.EntriesOk(x, m)
    ensures WithTable(t, b, t.h[b].table[k[|t.at[b]|..] := v]).EntriesOk(x, m[k := v])
  {
    var s := k[|t.at[b]|..];
    var t' := WithTable(t, b, t.h[b].table[s := v]);
    assert t.at[b] + s == k;
    forall e | e in t'.h[x].table
      ensures t.at[x] + e in m[k := v] && m[k := v][t.at[x] + e] == t'.h[x].table[e]
      ensures !t'.h[x].pure ==> e != [] && t'.h[x].c0 <= e[0] <= t'.h[x].c1
    {
      if !(x == b && e == s) {
        EntryOfAnotherKey(t, m, b, k, x, e);
      }
    }
  }

  /** Setting the entry for the rest of a covered key sets that key and no other. */
  lemma PutStores(t: Tree, m: map<Bytes, Value>, b: Id, k: Bytes, v: Value)
    requires t.Stores(m) && t.Covers(b, k) && ValidKey(k)
    ensures WithTable(t, b, t.h[b].table[k[|t.at[b]|..] := v]).Stores(m[k := v])
  {
    var table' := t.h[b].table[k[|t.at[b]|..] := v];
    var t' := WithTable(t, b, table');
    TableKeepsShape(t, b, table');
    forall x | t'.IsBucket(x) ensures t'.EntriesOk(x, m[k := v]) { PutEntries(t, m, b, k, v, x); }
    forall key | key in m[k := v]
      ensures t'.KeyOk(key)
    {
      if key == k {
        assert t'.Holds(b, key);
      } else {
        assert t.KeyOk(key);
        KeyStillOk(t, b, table', key);
      }
    }
  }

  lemma KeyStillOk(t: Tree, b: Id, table: map<Bytes, Value>, key: Bytes)
    requires t.IsBucket(b) && t.KeyOk(key)
    requires t.Holds(b, key) ==> key[|t.at[b]|..] in table
    ensures WithTable(t, b, table).KeyOk(key)
  {
    var x :| t.Holds(x, key);
    assert WithTable(t, b, table).Holds(x, key);
  }

  lemma DropEntries(t: Tree, m: map<Bytes, Value>, b: Id, k: Bytes, x: Id)
    requires t.Shape() && t.Covers(b, k) && t.IsBucket(x) && t.EntriesOk(x, m)
    ensures WithTable(t, b, t.h[b].table - {k[|t.at[b]|..]}).EntriesOk(x, m - {k})
  {
    var s := k[|t.at[b]|..];
    var t' := WithTable(t, b, t.h[b].table - {s});
    forall e | e in t'.h[x].table
      ensures t.at[x] + e in m - {k} && (m - {k})[t.at[x] + e] == t'.h[x].table[e]
      ensures !t'.h[x].pure ==> e != [] && t'.h[x].c0 <= e[0] <= t'.h[x].c1
    {
      EntryOfAnotherKey(t, m, b, k, x, e);
    }
  }

  lemma KeyNotDropped(t: Tree, b: Id, k: Bytes, key: Bytes)
    requires t.Covers(b, k) && t.KeyOk(key) && key != k
    ensures WithTable(t, b, t.h[b].table - {k[|t.at[b]|..]}).KeyOk(key)
  {
    if t.Holds(b, key) {
      assert t.at[b] + key[|t.at[b]|..] == key && t.at[b] + k[|t.at[b]|..] == k;
    }
    KeyStillOk(t, b, t.h[b].table - {k[|t.at[b]|..]}, key);
  }

  /** Dropping that entry drops the key and no other. */
  lemma DropStores(t: Tree, m: map<Bytes, Value>, b: Id, k: Bytes)
    requires t.Stores(m) && t.Covers(b, k)
    ensures WithTable(t, b, t.h[b].table - {k[|t.at[b]|..]}).Stores(m - {k})
  {
    var s := k[|t.at[b]|..];
    var table' := t.h[b].table - {s};
    var t' := WithTable(t, b, table');
    TableKeepsShape(t, b, table');
    forall x | t'.IsBucket(x) ensures t'.EntriesOk(x, m - {k}) { DropEntries(t, m, b, k, x); }
    forall key | key in m - {k}
      ensures t'.KeyOk(key)
    {
      KeyNotDropped(t, b, k, key);
    }
  }

  // ---- splits ----------------------------------------------------------------------------------

  /** A pure bucket becomes the one hybrid bucket of a new trie node u. */
  function SplitPure(t: Tree, x: Id, u: Id): Tree
    requires t.IsBucket(x) && x in t.up && t.IsTrie(t.up[x]) && x in t.at
    requires |t.h[t.up[x]].xs| == NODE_CHILDS
  {
    var parent := t.up[x];
    var p := Trie(t.h[parent].xs[t.h[x].c0 := u]);
    var node := Trie(seq(NODE_CHILDS, _ => x));
    t.(h := t.h[parent := p][u := node][x := Bucket(false, 0, NODE_MAXCHAR, t.h[x].table)],
       at := t.at[u := t.at[x]], up := t.up[u := parent][x := u])
  }

  // what is assumed of the pure bucket that is split
  ghost predicate PureSplittable(t: Tree, x: Id, u: Id) {
    && t.Shape() && t.IsBucket(x) && t.h[x].pure && t.h[x].c0 != 0 && u !in t.h && x != t.root
    && t.HangsOk(x) && x in t.at
  }

  lemma OnlyParentLeadsTo(t: Tree, x: Id, v: Id, c: byte)
    requires t.Shape() && t.IsBucket(x) && t.h[x].pure && x != t.root && t.IsTrie(v) && t.TrieOk(v) && t.h[v].xs[c] == x
    ensures t.HangsOk(x) && v == t.up[x] && c == t.h[x].c0
  {
    assert t.HangsOk(x) && t.TrieOk(t.up[x]) && t.ChildOk(t.up[x], t.h[x].c0) && t.ChildOk(v, c);
    assert t.at[v] == t.at[x][..|t.at[x]| - 1] == t.at[t.up[x]];
    assert t.Apart(v, t.up[x]);
  }

  lemma NoTrieAtPureBucket(t: Tree, x: Id, w: Id)
    requires t.Shape() && t.IsBucket(x) && t.h[x].pure && x != t.root && t.IsTrie(w)
    ensures x in t.at && w in t.at && t.at[w] != t.at[x]
  {
    assert t.HangsOk(x) && t.TrieOk(t.up[x]) && t.ChildOk(t.up[x], t.h[x].c0);
    if w != t.root {
      assert t.HangsOk(w) && t.TrieOk(t.up[w]) && t.ChildOk(t.up[w], t.Edge(w));
      assert t.at[t.up[w]] == t.at[w][..|t.at[w]| - 1];
      assert t.at[t.up[x]] == t.at[x][..|t.at[x]| - 1];
      assert t.Apart(t.up[w], t.up[x]);
    }
  }

  lemma SplitPureTries(t: Tree, x: Id, u: Id, v: Id)
    requires PureSplittable(t, x, u) && SplitPure(t, x, u).IsTrie(v)
    ensures SplitPure(t, x, u).TrieOk(v)
  {
    var t' := SplitPure(t, x, u);
    var parent, c0 := t.up[x], t.h[x].c0;
    assert t.TrieOk(parent) && t.ChildOk(parent, c0);
    if v == u {
      assert NulFree(t'.at[u]);
      forall c: byte ensures t'.ChildOk(u, c) {}
    } else {
      assert t.TrieOk(v);
      forall c: byte
        ensures t'.ChildOk(v, c)
      {
        assert t.ChildOk(v, c);
        if t.h[v].xs[c] == x {
          OnlyParentLeadsTo(t, x, v, c);
        }
      }
    }
  }

  lemma SplitPureShape(t: Tree, x: Id, u: Id)
    requires PureSplittable(t, x, u)
    ensures SplitPure(t, x, u).Shape()
  {
    var t' := SplitPure(t, x, u);
    var parent := t.up[x];
    assert t.TrieOk(parent) && t.ChildOk(parent, t.h[x].c0);
    forall v | t'.IsTrie(v) ensures t'.TrieOk(v) { SplitPureTries(t, x, u, v); }
    forall y | y in t'.h && y != t'.root
      ensures t'.HangsOk(y)
    {
      SplitPureHangs(t, x, u, y);
    }
    forall v, w | t'.IsTrie(v) && t'.IsTrie(w) ensures t'.Apart(v, w) {
      if v in t'.at && w in t'.at && t'.at[v] == t'.at[w] {
        SplitPureInjective(t, x, u, v, w);
      }
    }
  }

  lemma SplitPureInjective(t: Tree, x: Id, u: Id, v: Id, w: Id)
    requires PureSplittable(t, x, u)
    requires SplitPure(t, x, u).IsTrie(v) && SplitPure(t, x, u).IsTrie(w) && v in SplitPure(t, x, u).at
             && w in SplitPure(t, x, u).at
    requires SplitPure(t, x, u).at[v] == SplitPure(t, x, u).at[w]
    ensures v == w
  {
    if v != u {
      NoTrieAtPureBucket(t, x, v);
    }
    if w != u {
      NoTrieAtPureBucket(t, x, w);
    }
    assert v != u && w != u ==> t.Apart(v, w);
  }

  lemma SplitPureHangs(t: Tree, x: Id, u: Id, y: Id)
    requires PureSplittable(t, x, u) && y in SplitPure(t, x, u).h && y != t.root
    ensures SplitPure(t, x, u).HangsOk(y)
  {
    assert t.TrieOk(t.up[x]) && t.ChildOk(t.up[x], t.h[x].c0);
    if y != u && y != x {
      assert t.HangsOk(y) && t.TrieOk(t.up[y]) && t.ChildOk(t.up[y], t.Edge(y));
    }
  }

  // No entry of a pure bucket under another character than NUL is empty.
  lemma NoEmptyEntry(t: Tree, m: map<Bytes, Value>, x: Id)
    requires t.Stores(m) && t.IsBucket(x) && t.h[x].pure && t.h[x].c0 != 0 && x != t.root
    ensures [] !in t.h[x].table
  {
    assert t.HangsOk(x) && t.TrieOk(t.up[x]) && t.ChildOk(t.up[x], t.h[x].c0);
    assert t.EntriesOk(x, m);
    assert !ValidKey(t.at[x]);
    assert t.at[x] + [] == t.at[x];
    assert t.at[x] in m ==> t.KeyOk(t.at[x]);
  }

  lemma SplitPureKey(t: Tree, x: Id, u: Id, key: Bytes)
    requires PureSplittable(t, x, u) && t.KeyOk(key)
    ensures SplitPure(t, x, u).KeyOk(key)
  {
    var b :| t.Holds(b, key);
    assert SplitPure(t, x, u).Holds(b, key);
  }

  lemma SplitPureEntries(t: Tree, m: map<Bytes, Value>, x: Id, u: Id, b: Id)
    requires PureSplittable(t, x, u) && t.IsBucket(b) && b in t.at && t.EntriesOk(b, m) && [] !in t.h[x].table
    ensures SplitPure(t, x, u).EntriesOk(b, m)
  {
    var t' := SplitPure(t, x, u);
    forall s | s in t'.h[b].table
      ensures t'.at[b] + s in m && m[t'.at[b] + s] == t'.h[b].table[s]
      ensures !t'.h[b].pure ==> s != [] && t'.h[b].c0 <= s[0] <= t'.h[b].c1
    {}
  }

  /** The split of a pure bucket keeps the map. */
  lemma SplitPureStores(t: Tree, m: map<Bytes, Value>, x: Id, u: Id)
    requires t.Stores(m) && PureSplittable(t, x, u)
    ensures SplitPure(t, x, u).Stores(m)
  {
    var t' := SplitPure(t, x, u);
    SplitPureShape(t, x, u);
    NoEmptyEntry(t, m, x);
    forall b | t'.IsBucket(b) ensures t'.EntriesOk(b, m) { SplitPureEntries(t, m, x, u, b); }
    forall key | key in m ensures t'.KeyOk(key) { SplitPureKey(t, x, u, key); }
  }

  /** An entry without its first character, where the bucket is for one character only. */
  function Tail(s: Bytes, lo: byte, hi: byte): Bytes
    requires s != []
  {
    if lo == hi then s[1..] else s
  }

  function Whole(e: Bytes, lo: byte, hi: byte): Bytes {
    if lo == hi then [lo] + e else e
  }

  predicate Fits(e: Bytes, lo: byte, hi: byte) {
    lo == hi || (e != [] && lo <= e[0] <= hi)
  }

  /** The part of a hybrid table for the characters lo..hi, as the new bucket stores it. */
  ghost predicate IsPart(part: map<Bytes, Value>, table: map<Bytes, Value>, lo: byte, hi: byte) {
    && (forall e :: e in part ==> Fits(e, lo, hi) && Whole(e, lo, hi) in table && part[e] == table[Whole(e, lo, hi)])
    && (forall s {:trigger Tail(s, lo, hi)} :: s in table && s != [] && lo <= s[0] <= hi ==> Tail(s, lo, hi) in part)
  }

  // The string that leads to a new bucket for lo..hi below a trie node at p.
  function PartAt(p: Bytes, lo: byte, hi: byte): Bytes {
    if lo == hi then p + [lo] else p
  }

  function NewBucket(part: map<Bytes, Value>, lo: byte, hi: byte): Node {
    Bucket(lo == hi, lo, hi, part)
  }

  // The child pointers of the parent after the bucket for c0..c1 is split after character j.
  function SplitRun(xs: seq<Id>, c0: byte, j: byte, c1: byte, l: Id, r: Id): (ys: seq<Id>)
    requires |xs| == NODE_CHILDS
    ensures |ys| == NODE_CHILDS
    ensures forall c: byte :: ys[c] == if c0 <= c <= j then l else if j < c <= c1 then r else xs[c]
  {
    seq(NODE_CHILDS, c requires 0 <= c < NODE_CHILDS => if c0 <= c <= j then l else if j < c <= c1 then r else xs[c])
  }

  /** A new bucket: its number and its table. */
  datatype New = New(id: Id, part: map<Bytes, Value>)

  /** A hybrid bucket is replaced by two buckets for the characters c0..j and j+1..c1. */
  function SplitHybrid(t: Tree, x: Id, j: byte, l: New, r: New): Tree
    requires t.IsBucket(x) && x in t.up && t.IsTrie(t.up[x]) && x in t.at && j < t.h[x].c1
    requires |t.h[t.up[x]].xs| == NODE_CHILDS
  {
    var Bucket(_, c0, c1, _) := t.h[x];
    var parent := t.up[x];
    t.(h := (t.h - {x})[parent := Trie(SplitRun(t.h[parent].xs, c0, j, c1, l.id, r.id))]
              [l.id := NewBucket(l.part, c0, j)][r.id := NewBucket(r.part, j + 1, c1)],
       at := (t.at - {x})[l.id := PartAt(t.at[x], c0, j)][r.id := PartAt(t.at[x], j + 1, c1)],
       up := (t.up - {x})[l.id := parent][r.id := parent])
  }

  ghost predicate HybridSplittable(t: Tree, x: Id, j: byte, l: New, r: New) {
    && t.Shape() && t.IsBucket(x) && !t.h[x].pure && t.h[x].c0 <= j < t.h[x].c1
    && l.id !in t.h && r.id !in t.h && l.id != r.id && x != t.root && t.HangsOk(x) && x in t.at
  }

  ghost predicate Replaceable(t: Tree, x: Id, j: byte, l: New, r: New) {
    && t.IsBucket(x) && t.h[x].c0 <= j < t.h[x].c1 && x in t.at && x in t.up && t.IsTrie(t.up[x])
    && |t.h[t.up[x]].xs| == NODE_CHILDS && l.id !in t.h && r.id !in t.h && l.id != r.id
  }

  // What the two new buckets are.
  lemma NewBuckets(t: Tree, x: Id, j: byte, l: New, r: New)
    requires Replaceable(t, x, j, l, r)
    ensures var t', n := SplitHybrid(t, x, j, l, r), t.h[x];
            && l.id in t'.h && t'.h[l.id] == NewBucket(l.part, n.c0, j) && l.id in t'.at
               && t'.at[l.id] == PartAt(t.at[x], n.c0, j)
            && r.id in t'.h && t'.h[r.id] == NewBucket(r.part, j + 1, n.c1) && r.id in t'.at
               && t'.at[r.id] == PartAt(t.at[x], j + 1, n.c1)
  {
  }

  // No other bucket is touched.
  lemma OtherBuckets(t: Tree, x: Id, j: byte, l: New, r: New, b: Id)
    requires Replaceable(t, x, j, l, r) && b != l.id && b != r.id
    ensures SplitHybrid(t, x, j, l, r).IsBucket(b) <==> b != x && t.IsBucket(b)
    ensures var t' := SplitHybrid(t, x, j, l, r);
            t'.IsBucket(b) && b in t.at ==> b in t'.at && t'.at[b] == t.at[b] && t'.h[b] == t.h[b]
  {
  }

  // Only the parent of a hybrid bucket points to it, for the characters of the bucket.
  lemma OnlyRunLeadsTo(t: Tree, x: Id, v: Id, c: byte)
    requires t.Shape() && t.IsBucket(x) && !t.h[x].pure && x != t.root && t.IsTrie(v) && t.TrieOk(v)
    ensures t.HangsOk(x) && |t.h[t.up[x]].xs| == NODE_CHILDS
    ensures t.h[v].xs[c] == x <==> v == t.up[x] && t.h[x].c0 <= c <= t.h[x].c1
    ensures x in t.at && t.up[x] in t.at && t.at[x] == t.at[t.up[x]] && NulFree(t.at[x])
  {
    assert t.HangsOk(x) && t.TrieOk(t.up[x]) && t.ChildOk(t.up[x], t.h[x].c0) && t.ChildOk(v, c);
    assert t.Apart(v, t.up[x]);
  }

  lemma SplitHybridChild(t: Tree, x: Id, j: byte, l: New, r: New, v: Id, c: byte)
    requires HybridSplittable(t, x, j, l, r) && t.IsTrie(v) && t.TrieOk(v)
    requires t.h[v].xs[c] != x
    ensures SplitHybrid(t, x, j, l, r).ChildOk(v, c)
  {
    var t' := SplitHybrid(t, x, j, l, r);
    OnlyRunLeadsTo(t, x, v, c);
    assert t.ChildOk(v, c);
    forall d: byte ensures t.h[v].xs[d] == t'.h[v].xs[d] || t.h[v].xs[d] == x { OnlyRunLeadsTo(t, x, v, d); }
  }

  lemma SplitHybridRuns(t: Tree, x: Id, j: byte, l: New, r: New, c: byte)
    requires Replaceable(t, x, j, l, r) && t.h[x].c0 <= c <= t.h[x].c1 && l.id != t.root && r.id != t.root
    requires t.up[x] in t.at && t.at[t.up[x]] == t.at[x]
    ensures SplitHybrid(t, x, j, l, r).IsTrie(t.up[x]) && t.up[x] in SplitHybrid(t, x, j, l, r).at
    ensures SplitHybrid(t, x, j, l, r).ChildOk(t.up[x], c)
  {
    NewBuckets(t, x, j, l, r);
  }

  lemma SplitHybridTries(t: Tree, x: Id, j: byte, l: New, r: New, v: Id)
    requires HybridSplittable(t, x, j, l, r) && SplitHybrid(t, x, j, l, r).IsTrie(v)
    ensures SplitHybrid(t, x, j, l, r).TrieOk(v)
  {
    var t' := SplitHybrid(t, x, j, l, r);
    assert t.TrieOk(t.up[x]);
    assert t.IsTrie(v) && t.TrieOk(v);
    forall c: byte
      ensures t'.ChildOk(v, c)
    {
      OnlyRunLeadsTo(t, x, v, c);
      if t.h[v].xs[c] == x {
        SplitHybridRuns(t, x, j, l, r, c);
      } else {
        SplitHybridChild(t, x, j, l, r, v, c);
      }
    }
  }

  lemma NewBucketsHang(t: Tree, x: Id, j: byte, l: New, r: New)
    requires Replaceable(t, x, j, l, r)
    ensures SplitHybrid(t, x, j, l, r).IsBucket(l.id) && SplitHybrid(t, x, j, l, r).HangsOk(l.id)
    ensures SplitHybrid(t, x, j, l, r).IsBucket(r.id) && SplitHybrid(t, x, j, l, r).HangsOk(r.id)
  {
    NewBuckets(t, x, j, l, r);
  }

  lemma OldNodesHang(t: Tree, x: Id, j: byte, l: New, r: New, y: Id)
    requires Replaceable(t, x, j, l, r) && y in t.h && y != x && t.HangsOk(y)
    requires t.up[y] == t.up[x] ==> !(t.h[x].c0 <= t.Edge(y) <= t.h[x].c1)
    ensures y in SplitHybrid(t, x, j, l, r).h && SplitHybrid(t, x, j, l, r).HangsOk(y)
  {
  }

  lemma SplitHybridHangs(t: Tree, x: Id, j: byte, l: New, r: New, y: Id)
    requires HybridSplittable(t, x, j, l, r) && y in SplitHybrid(t, x, j, l, r).h && y != t.root
    ensures SplitHybrid(t, x, j, l, r).HangsOk(y)
  {
    assert t.TrieOk(t.up[x]);
    if y == l.id || y == r.id {
      NewBucketsHang(t, x, j, l, r);
    } else {
      assert t.HangsOk(y) && t.TrieOk(t.up[y]);
      OnlyRunLeadsTo(t, x, t.up[y], t.Edge(y));
      OldNodesHang(t, x, j, l, r, y);
    }
  }

  lemma SplitHybridKeys(t: Tree, x: Id, j: byte, l: New, r: New)
    requires Replaceable(t, x, j, l, r) && t.h.Keys == t.at.Keys && t.IsTrie(t.root) && t.at[t.root] == []
    ensures var t' := SplitHybrid(t, x, j, l, r);
            t'.h.Keys == t'.at.Keys && t'.IsTrie(t'.root) && t'.at[t'.root] == []
  {
  }

  lemma SplitHybridInjective(t: Tree, x: Id, j: byte, l: New, r: New, v: Id, w: Id)
    requires HybridSplittable(t, x, j, l, r)
    requires SplitHybrid(t, x, j, l, r).IsTrie(v) && SplitHybrid(t, x, j, l, r).IsTrie(w)
    ensures t.IsTrie(v) && t.IsTrie(w) && v in t.at && w in t.at
    ensures SplitHybrid(t, x, j, l, r).at[v] == t.at[v] && SplitHybrid(t, x, j, l, r).at[w] == t.at[w]
    ensures t.at[v] == t.at[w] ==> v == w
  {
    assert t.TrieOk(t.up[x]) && t.Apart(v, w);
  }

  lemma SplitHybridShape(t: Tree, x: Id, j: byte, l: New, r: New)
    requires HybridSplittable(t, x, j, l, r)
    ensures SplitHybrid(t, x, j, l, r).Shape()
  {
    var t' := SplitHybrid(t, x, j, l, r);
    assert t.TrieOk(t.up[x]);
    SplitHybridKeys(t, x, j, l, r);
    forall v | t'.IsTrie(v) ensures t'.TrieOk(v) { SplitHybridTries(t, x, j, l, r, v); }
    forall y | y in t'.h && y != t'.root ensures t'.HangsOk(y) { SplitHybridHangs(t, x, j, l, r, y); }
    forall v, w | t'.IsTrie(v) && t'.IsTrie(w) ensures t'.Apart(v, w) { SplitHybridInjective(t, x, j, l, r, v, w); }
  }

  ghost predicate EntriesIn(p: Bytes, table: map<Bytes, Value>, m: map<Bytes, Value>) {
    forall s :: s in table ==> p + s in m && m[p + s] == table[s]
  }

  lemma PartEntries(p: Bytes, table: map<Bytes, Value>, m: map<Bytes, Value>, lo: byte, hi: byte, part: map<Bytes,
                    Value>)
    requires EntriesIn(p, table, m) && lo <= hi && IsPart(part, table, lo, hi)
    ensures EntriesIn(PartAt(p, lo, hi), part, m)
  {
    forall e | e in part
      ensures PartAt(p, lo, hi) + e in m && m[PartAt(p, lo, hi) + e] == part[e]
    {
      assert PartAt(p, lo, hi) + e == p + Whole(e, lo, hi);
    }
  }

  lemma PartKeeps(p: Bytes, table: map<Bytes, Value>, lo: byte, hi: byte, part: map<Bytes, Value>, key: Bytes)
    requires p <= key && key[|p|..] in table && |p| < |key| && lo <= key[|p|] <= hi && IsPart(part, table, lo, hi)
    ensures PartAt(p, lo, hi) <= key && key[|PartAt(p, lo, hi)|..] in part
  {
    var s := key[|p|..];
    assert Tail(s, lo, hi) == key[|PartAt(p, lo, hi)|..];
  }

  ghost predicate AreParts(t: Tree, x: Id, j: byte, l: New, r: New)
    requires t.IsBucket(x) && j < 255
  {
    IsPart(l.part, t.h[x].table, t.h[x].c0, j) && IsPart(r.part, t.h[x].table, j + 1, t.h[x].c1)
  }

  lemma SplitHybridEntries(t: Tree, m: map<Bytes, Value>, x: Id, j: byte, l: New, r: New, b: Id)
    requires HybridSplittable(t, x, j, l, r) && AreParts(t, x, j, l, r) && t.EntriesOk(x, m)
    requires b == l.id || b == r.id
    ensures SplitHybrid(t, x, j, l, r).IsBucket(b) && b in SplitHybrid(t, x, j, l, r).at
    ensures SplitHybrid(t, x, j, l, r).EntriesOk(b, m)
  {
    assert t.TrieOk(t.up[x]);
    NewBuckets(t, x, j, l, r);
    var Bucket(_, c0, c1, table) := t.h[x];
    assert EntriesIn(t.at[x], table, m);
    PartEntries(t.at[x], table, m, c0, j, l.part);
    PartEntries(t.at[x], table, m, j + 1, c1, r.part);
  }

  lemma SplitHybridKey(t: Tree, m: map<Bytes, Value>, x: Id, j: byte, l: New, r: New, key: Bytes)
    requires HybridSplittable(t, x, j, l, r) && AreParts(t, x, j, l, r) && t.EntriesOk(x, m) && t.KeyOk(key)
    ensures SplitHybrid(t, x, j, l, r).KeyOk(key)
  {
    assert t.TrieOk(t.up[x]);
    NewBuckets(t, x, j, l, r);
    var b :| t.Holds(b, key);
    var t' := SplitHybrid(t, x, j, l, r);
    var Bucket(_, c0, c1, table) := t.h[x];
    if b == x {
      var p := t.at[x];
      t.HoldsCovers(x, key, m);
      if key[|p|] <= j {
        PartKeeps(p, table, c0, j, l.part, key);
        assert t'.Holds(l.id, key);
      } else {
        PartKeeps(p, table, j + 1, c1, r.part, key);
        assert t'.Holds(r.id, key);
      }
    } else {
      OtherBuckets(t, x, j, l, r, b);
      assert t'.Holds(b, key);
    }
  }

  /** The split of a hybrid bucket keeps the map, wherever it is cut. */
  lemma SplitHybridStores(t: Tree, m: map<Bytes, Value>, x: Id, j: byte, l: New, r: New)
    requires t.Stores(m) && HybridSplittable(t, x, j, l, r) && AreParts(t, x, j, l, r)
    ensures SplitHybrid(t, x, j, l, r).Stores(m)
  {
    var t' := SplitHybrid(t, x, j, l, r);
    assert t.EntriesOk(x, m);
    assert t.TrieOk(t.up[x]);
    SplitHybridShape(t, x, j, l, r);
    forall b | t'.IsBucket(b) ensures t'.EntriesOk(b, m) {
      if b == l.id || b == r.id {
        SplitHybridEntries(t, m, x, j, l, r, b);
      } else {
        OtherBuckets(t, x, j, l, r, b);
        assert t.EntriesOk(b, m);
      }
    }
    forall key | key in m ensures t'.KeyOk(key) { SplitHybridKey(t, m, x, j, l, r, key); }
  }
}
