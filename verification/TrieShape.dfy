/**
  The nodes of the HAT-trie of lib/hat-trie/src/hat-trie.c as a heap of numbered nodes, so that the
  sharing of one bucket by a run of child pointers is kept.
 */
module TrieShape {
  import opened Basics

  type Id = int
  type Value = Bytes

  const NODE_CHILDS := 256
  const NODE_MAXCHAR := 255

  /** A trie node with its 256 child pointers, or a bucket for the characters c0..c1. */
  datatype Node =
    | Trie(xs: seq<Id>)
    | Bucket(pure: bool, c0: byte, c1: byte, table: map<Bytes, Value>)

  /** The keys of this repository: a C string with its terminating NUL. */
  predicate ValidKey(k: Bytes) {
    |k| > 0 && k[|k| - 1] == 0 && NulFree(k[..|k| - 1])
  }

  predicate NulFree(s: Bytes) {
    forall i :: 0 <= i < |s| ==> s[i] != 0
  }

  /** Nodes with, for each, the string that leads to it and the node above it. */
  datatype Tree = Tree(h: map<Id, Node>, root: Id, at: map<Id, Bytes>, up: map<Id, Id>) {
    predicate IsTrie(t: Id) { t in h && h[t].Trie? }
    predicate IsBucket(b: Id) { b in h && h[b].Bucket? }

    /** The character under which node x hangs below its parent; a hybrid bucket hangs under several. */
    function Edge(x: Id): byte
      requires x in h && x in at
    {
      if h[x].Bucket? then h[x].c0 else if at[x] == [] then 0 else at[x][|at[x]| - 1]
    }

    /** Child pointer c of trie node t is right: the run of a hybrid bucket, or a node one character on. */
    ghost predicate ChildOk(t: Id, c: byte)
      requires IsTrie(t) && t in at && |h[t].xs| == NODE_CHILDS
    {
      var x := h[t].xs[c];
      && x in h && x in at && x != root
      && match h[x]
         case Trie(_) => c != 0 && at[x] == at[t] + [c]
         case Bucket(pure, c0, c1, _) =>
           if pure then c0 == c && c1 == c && at[x] == at[t] + [c]
           else c0 <= c <= c1 && c0 < c1 && at[x] == at[t] && forall d: byte :: c0 <= d <= c1 ==> h[t].xs[d] == x
    }

    ghost predicate TrieOk(t: Id)
      requires IsTrie(t)
    {
      t in at && |h[t].xs| == NODE_CHILDS && NulFree(at[t]) && forall c: byte {:trigger ChildOk(t, c)} :: ChildOk(t, c)
    }

    /** Every node but the root is what its parent's pointer leads to. */
    ghost predicate HangsOk(x: Id)
      requires x in h
    {
      && x in at && x in up && IsTrie(up[x]) && |h[up[x]].xs| == NODE_CHILDS
      && h[up[x]].xs[Edge(x)] == x
    }

    /** Different trie nodes are reached by different strings. */
    predicate Apart(t: Id, u: Id) {
      t in at && u in at && at[t] == at[u] ==> t == u
    }

    ghost predicate Shape() {
      && h.Keys == at.Keys
      && IsTrie(root) && at[root] == []
      && (forall t {:trigger TrieOk(t)} :: IsTrie(t) ==> TrieOk(t))
      && (forall x {:trigger HangsOk(x)} :: x in h && x != root ==> HangsOk(x))
      && (forall t, u {:trigger Apart(t, u)} :: IsTrie(t) && IsTrie(u) ==> Apart(t, u))
    }

    /** Would a search for k end in bucket b? */
    ghost predicate Covers(b: Id, k: Bytes) {
      && IsBucket(b) && b in at && at[b] <= k
      && (!h[b].pure ==> |at[b]| < |k| && h[b].c0 <= k[|at[b]|] <= h[b].c1)
    }

    ghost predicate Holds(b: Id, k: Bytes) {
      IsBucket(b) && b in at && at[b] <= k && k[|at[b]|..] in h[b].table
    }

    /** Entries of bucket b are the ends of keys of m; none is empty or out of range in a hybrid bucket. */
    ghost predicate EntriesOk(b: Id, m: map<Bytes, Value>)
      requires IsBucket(b) && b in at
    {
      forall s :: s in h[b].table ==>
        && at[b] + s in m && m[at[b] + s] == h[b].table[s]
        && (!h[b].pure ==> s != [] && h[b].c0 <= s[0] <= h[b].c1)
    }

    ghost predicate KeyOk(k: Bytes) {
      ValidKey(k) && exists b :: Holds(b, k)
    }

    /** The tree stores exactly the map m. */
    ghost predicate Stores(m: map<Bytes, Value>) {
      && Shape()
      && (forall b {:trigger EntriesOk(b, m)} :: IsBucket(b) ==> EntriesOk(b, m))
      && (forall k {:trigger KeyOk(k)} :: k in m ==> KeyOk(k))
    }

    // ---- finding the bucket of a key -----------------------------------------------------------

    /** Every prefix of the string of a trie node belongs to a trie node, which leads on towards it. */
    lemma {:induction false} PrefixIsTrie(t: Id, n: nat) returns (u: Id)
      requires Shape() && IsTrie(t) && n < |at[t]|
      ensures IsTrie(u) && at[u] == at[t][..n]
      ensures |h[u].xs| == NODE_CHILDS && IsTrie(h[u].xs[at[t][n]])
      decreases |at[t]|
    {
      assert HangsOk(t);
      var p := up[t];
      var c := Edge(t);
      assert TrieOk(p) && ChildOk(p, c);
      assert at[t] == at[p] + [c];
      if n == |at[p]| {
        u := p;
      } else {
        u := PrefixIsTrie(p, n);
        assert at[p][..n] == at[t][..n];
      }
    }

    lemma CoverHangs(b: Id, k: Bytes) returns (t: Id)
      requires Shape() && Covers(b, k)
      ensures IsTrie(t) && |h[t].xs| == NODE_CHILDS && at[t] < k && h[t].xs[k[|at[t]|]] == b
    {
      assert HangsOk(b);
      t := up[b];
      assert TrieOk(t) && ChildOk(t, h[b].c0);
    }

    lemma SameWay(t: Id, u: Id)
      requires Shape() && IsTrie(t) && IsTrie(u) && t in at && u in at && at[t] == at[u]
      ensures t == u
    {
      assert Apart(t, u);
    }

    /** A key is covered by one bucket only. */
    lemma CoverIsUnique(b: Id, x: Id, k: Bytes)
      requires Shape() && Covers(b, k) && Covers(x, k)
      ensures b == x
    {
      var t := CoverHangs(b, k);
      var u := CoverHangs(x, k);
      if |at[t]| < |at[u]| {
        var v := PrefixIsTrie(u, |at[t]|);
        SameWay(t, v);
      } else if |at[u]| < |at[t]| {
        var v := PrefixIsTrie(t, |at[u]|);
        SameWay(u, v);
      } else {
        SameWay(t, u);
      }
    }

    lemma HoldsCovers(b: Id, k: Bytes, m: map<Bytes, Value>)
      requires Holds(b, k) && EntriesOk(b, m)
      ensures Covers(b, k) && k in m && m[k] == h[b].table[k[|at[b]|..]]
    {
      var s := k[|at[b]|..];
      assert at[b] + s == k;
      assert s != [] ==> s[0] == k[|at[b]|];
    }

    /** In the bucket that covers a key the rest of the key is found exactly if the key is stored. */
    lemma CoverDecides(b: Id, k: Bytes, m: map<Bytes, Value>)
      requires Stores(m) && Covers(b, k)
      ensures k in m <==> k[|at[b]|..] in h[b].table
      ensures k in m ==> m[k] == h[b].table[k[|at[b]|..]]
    {
      if k in m {
        assert KeyOk(k);
        var x :| Holds(x, k);
        HoldsCovers(x, k, m);
        CoverIsUnique(b, x, k);
      }
      if k[|at[b]|..] in h[b].table {
        HoldsCovers(b, k, m);
      }
    }
  }
}
