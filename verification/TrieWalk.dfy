/** The order in which the iterator of lib/hat-trie/src/hat-trie.c visits the nodes of a HAT-trie. */
module TrieWalk {
  import opened Basics
  import opened ByteOrder
  import opened TrieShape

  /** An entry of the iterator's stack: a node, the character that leads to it, and its depth. */
  datatype Item = Item(c: byte, level: nat, node: Id)

  // ---- the keys below a node -----------------------------------------------------------------------

  /** Would a search for k pass through node x, or end there? */
  ghost predicate Region(t: Tree, x: Id, k: Bytes) {
    x in t.h && x in t.at && if t.h[x].Trie? then t.at[x] <= k else t.Covers(x, k)
  }

  /** All keys below x come before all keys below y. */
  ghost predicate Before(t: Tree, x: Id, y: Id) {
    forall k, l {:trigger Region(t, x, k), Region(t, y, l)} :: Region(t, x, k) && Region(t, y, l) ==> Less(k, l)
  }

  predicate Rightmost(xs: seq<Id>, c: nat)
    requires c < |xs|
  {
    c + 1 < |xs| ==> xs[c + 1] != xs[c]
  }

  lemma RegionBelow(t: Tree, p: Id, c: byte, k: Bytes)
    requires t.Shape() && t.IsTrie(p) && |t.h[p].xs| == NODE_CHILDS && p in t.at
    ensures Region(t, t.h[p].xs[c], k) ==> t.at[p] < k
    ensures Region(t, t.h[p].xs[c], k) && Rightmost(t.h[p].xs, c) ==> k[|t.at[p]|] <= c
  {
    assert t.TrieOk(p) && t.ChildOk(p, c);
  }

  lemma RegionAbove(t: Tree, p: Id, b: byte, c: byte, k: Bytes)
    requires t.Shape() && t.IsTrie(p) && |t.h[p].xs| == NODE_CHILDS && p in t.at
    requires b < c && Rightmost(t.h[p].xs, b) && Region(t, t.h[p].xs[c], k)
    ensures t.at[p] < k && b < k[|t.at[p]|]
  {
    assert t.TrieOk(p) && t.ChildOk(p, c);
  }

  lemma KidsInOrder(t: Tree, p: Id, b: byte, c: byte)
    requires t.Shape() && t.IsTrie(p) && |t.h[p].xs| == NODE_CHILDS && p in t.at && b < c && Rightmost(t.h[p].xs, b)
    ensures Before(t, t.h[p].xs[b], t.h[p].xs[c])
  {
    var x, y := t.h[p].xs[b], t.h[p].xs[c];
    forall k, l | Region(t, x, k) && Region(t, y, l) ensures Less(k, l) {
      RegionBelow(t, p, b, k);
      RegionAbove(t, p, b, c, l);
      LessAt(t.at[p], k, l);
    }
  }

  /** What comes before or behind a trie node comes before or behind its children. */
  lemma KidInOrder(t: Tree, p: Id, c: byte, y: Id)
    requires t.Shape() && t.IsTrie(p) && |t.h[p].xs| == NODE_CHILDS && p in t.at && Before(t, p, y)
    ensures Before(t, t.h[p].xs[c], y)
  {
    var x := t.h[p].xs[c];
    forall k, l | Region(t, x, k) && Region(t, y, l) ensures Less(k, l) {
      RegionBelow(t, p, c, k);
      assert Region(t, p, k);
    }
  }

  lemma KidOfKey(t: Tree, p: Id, k: Bytes)
    requires t.Shape() && t.IsTrie(p) && |t.h[p].xs| == NODE_CHILDS && Region(t, p, k) && |t.at[p]| < |k|
    ensures Region(t, t.h[p].xs[k[|t.at[p]|]], k)
  {
    assert t.TrieOk(p) && t.ChildOk(p, k[|t.at[p]|]);
  }

  // ---- the children that are pushed ------------------------------------------------------------------

  /**
    The children of the last n positions, each once, as they lie on the stack after they are pushed from right to left.
   */
  function Kids(xs: seq<Id>, level: nat, n: nat): seq<Item>
    requires |xs| == NODE_CHILDS && n <= |xs|
  {
    if n == 0 then []
    else
      var j := |xs| - n;
      (if Rightmost(xs, j) then [Item(j, level, xs[j])] else []) + Kids(xs, level, n - 1)
  }

  predicate KidOk(xs: seq<Id>, level: nat, j: int, item: Item)
    requires |xs| == NODE_CHILDS
  {
    j <= item.c && item.level == level && item.node == xs[item.c] && Rightmost(xs, item.c)
  }

  /** Children of positions j and up, from left to right. */
  ghost predicate InLine(xs: seq<Id>, level: nat, j: int, kids: seq<Item>)
    requires |xs| == NODE_CHILDS
  {
    && (forall i {:trigger kids[i]} :: 0 <= i < |kids| ==> KidOk(xs, level, j, kids[i]))
    && (forall i, l :: 0 <= i < l < |kids| ==> kids[i].c < kids[l].c)
  }

  lemma {:induction false} KidsInLine(xs: seq<Id>, level: nat, n: nat)
    requires |xs| == NODE_CHILDS && n <= |xs|
    ensures InLine(xs, level, |xs| - n, Kids(xs, level, n))
  {
    if n > 0 {
      KidsInLine(xs, level, n - 1);
      var j := |xs| - n;
      if Rightmost(xs, j) {
        FirstKid(xs, level, j, Item(j, level, xs[j]), Kids(xs, level, n - 1));
      } else {
        MoreRoom(xs, level, j, Kids(xs, level, n - 1));
        assert Kids(xs, level, n) == Kids(xs, level, n - 1);
      }
    }
  }

  lemma MoreRoom(xs: seq<Id>, level: nat, j: int, kids: seq<Item>)
    requires |xs| == NODE_CHILDS && InLine(xs, level, j + 1, kids)
    ensures InLine(xs, level, j, kids)
  {
  }

  lemma FirstKid(xs: seq<Id>, level: nat, j: int, first: Item, rest: seq<Item>)
    requires |xs| == NODE_CHILDS && KidOk(xs, level, j, first) && first.c == j && InLine(xs, level, j + 1, rest)
    ensures InLine(xs, level, j, [first] + rest)
  {
    var kids := [first] + rest;
    forall i, l | 0 <= i < l < |kids| ensures kids[i].c < kids[l].c {
      assert kids[l] == rest[l - 1];
      if i > 0 {
        assert kids[i] == rest[i - 1];
      }
    }
  }

  lemma {:induction false} KidAt(xs: seq<Id>, level: nat, n: nat, c: byte) returns (i: nat)
    requires |xs| == NODE_CHILDS && n <= |xs| && |xs| - n <= c
    ensures i < |Kids(xs, level, n)| && Kids(xs, level, n)[i].node == xs[c]
    decreases n
  {
    var j := |xs| - n;
    if j == c && Rightmost(xs, j) {
      i := 0;
    } else {
      var d: byte := if j == c then c + 1 else c;
      i := KidAt(xs, level, n - 1, d);
      i := if Rightmost(xs, j) then i + 1 else i;
    }
  }

  // ---- the stack -------------------------------------------------------------------------------------

  /** The key buffer holds the way to an item of the stack, up to the character that leads to it. */
  ghost predicate ItemOk(t: Tree, key: Bytes, item: Item) {
    && item.node in t.h && item.node in t.at && item.level <= |key| + 1
    && if item.level == 0 then t.IsTrie(item.node) && t.at[item.node] == []
       else if t.h[item.node].Bucket? && !t.h[item.node].pure then t.at[item.node] == key[..item.level - 1]
       else t.at[item.node] == key[..item.level - 1] + [item.c]
  }

  ghost predicate StackOk(t: Tree, key: Bytes, stack: seq<Item>) {
    && (forall i {:trigger ItemOk(t, key, stack[i])} :: 0 <= i < |stack| ==> ItemOk(t, key, stack[i]))
    && (forall i, j {:trigger Before(t, stack[i].node, stack[j].node)} :: 0 <= i < j < |stack| ==>
          Before(t, stack[i].node, stack[j].node) && stack[j].level <= stack[i].level)
  }

  // The buffer after a character was put at the end of the way to a node.
  ghost predicate Pushed(key: Bytes, key': Bytes, level: nat, c: byte) {
    level <= |key'| && if level == 0 then key' == key else level - 1 <= |key| && key'[..level] == key[..level - 1] + [c]
  }

  lemma ItemStays(t: Tree, key: Bytes, key': Bytes, level: nat, c: byte, item: Item)
    requires ItemOk(t, key, item) && Pushed(key, key', level, c) && item.level <= level
    ensures ItemOk(t, key', item)
  {
    if item.level > 0 {
      assert key'[..item.level - 1] == key'[..level][..item.level - 1] == key[..item.level - 1];
    }
  }

  lemma RestStays(t: Tree, key: Bytes, key': Bytes, stack: seq<Item>)
    requires |stack| > 0 && StackOk(t, key, stack) && Pushed(key, key', stack[0].level, stack[0].c)
    ensures StackOk(t, key', stack[1..])
    ensures forall i :: 0 < i < |stack| ==> Before(t, stack[0].node, stack[i].node) && stack[i].level <= stack[0].level
  {
    var rest := stack[1..];
    forall i | 0 <= i < |rest| ensures ItemOk(t, key', rest[i]) {
      assert ItemOk(t, key, stack[i + 1]) && Before(t, stack[0].node, stack[i + 1].node);
      ItemStays(t, key, key', stack[0].level, stack[0].c, rest[i]);
    }
    forall i, j | 0 <= i < j < |rest| ensures Before(t, rest[i].node, rest[j].node) && rest[j].level <= rest[i].level {
      assert Before(t, stack[i + 1].node, stack[j + 1].node);
    }
  }

  lemma KidIsOk(t: Tree, p: Id, key: Bytes, level: nat, item: Item)
    requires t.Shape() && t.IsTrie(p) && |t.h[p].xs| == NODE_CHILDS && p in t.at && level <= |key|
             && t.at[p] == key[..level]
    requires KidOk(t.h[p].xs, level + 1, 0, item)
    ensures ItemOk(t, key, item)
  {
    assert t.TrieOk(p) && t.ChildOk(p, item.c);
  }

  /** The stack entries for the children of a trie node. */
  function AllKids(t: Tree, item: Item): seq<Item>
    requires t.IsTrie(item.node) && |t.h[item.node].xs| == NODE_CHILDS
  {
    Kids(t.h[item.node].xs, item.level + 1, |t.h[item.node].xs|)
  }

  // Two parts of a stack make one if everything in the upper part comes first.
  lemma Stacked(t: Tree, key: Bytes, kids: seq<Item>, rest: seq<Item>)
    requires StackOk(t, key, kids) && StackOk(t, key, rest)
    requires forall i, j :: 0 <= i < |kids| && 0 <= j < |rest| ==>
      Before(t, kids[i].node, rest[j].node) && rest[j].level <= kids[i].level
    ensures StackOk(t, key, kids + rest)
  {
    var all, n := kids + rest, |kids|;
    forall i | 0 <= i < |all| ensures ItemOk(t, key, all[i]) {
      if i < n {
        assert ItemOk(t, key, kids[i]);
      } else {
        assert ItemOk(t, key, rest[i - n]);
      }
    }
    forall i, j | 0 <= i < j < |all| ensures Before(t, all[i].node, all[j].node) && all[j].level <= all[i].level {
      if j < n {
        assert Before(t, kids[i].node, kids[j].node);
      } else if i >= n {
        assert Before(t, rest[i - n].node, rest[j - n].node);
      } else {
        assert Before(t, kids[i].node, rest[j - n].node);
      }
    }
  }

  lemma KidsStack(t: Tree, p: Id, key: Bytes, level: nat)
    requires t.Shape() && t.IsTrie(p) && |t.h[p].xs| == NODE_CHILDS && p in t.at && level <= |key|
             && t.at[p] == key[..level]
    ensures StackOk(t, key, Kids(t.h[p].xs, level + 1, |t.h[p].xs|))
  {
    var kids := Kids(t.h[p].xs, level + 1, |t.h[p].xs|);
    KidsInLine(t.h[p].xs, level + 1, |t.h[p].xs|);
    forall i | 0 <= i < |kids| ensures ItemOk(t, key, kids[i]) { KidIsOk(t, p, key, level, kids[i]); }
    forall i, j | 0 <= i < j < |kids| ensures Before(t, kids[i].node, kids[j].node) && kids[j].level <= kids[i].level {
      KidsInOrder(t, p, kids[i].c, kids[j].c);
    }
  }

  /** A trie node on top of the stack is replaced by its children. */
  lemma TriePops(t: Tree, key: Bytes, key': Bytes, stack: seq<Item>)
    requires t.Shape() && |stack| > 0 && StackOk(t, key, stack) && t.IsTrie(stack[0].node)
             && |t.h[stack[0].node].xs| == NODE_CHILDS
    requires Pushed(key, key', stack[0].level, stack[0].c)
    ensures StackOk(t, key', AllKids(t, stack[0]) + stack[1..])
  {
    var p, level := stack[0].node, stack[0].level;
    var kids, rest := Kids(t.h[p].xs, level + 1, |t.h[p].xs|), stack[1..];
    assert ItemOk(t, key, stack[0]);
    RestStays(t, key, key', stack);
    KidsStack(t, p, key', level);
    KidsInLine(t.h[p].xs, level + 1, |t.h[p].xs|);
    forall i, j | 0 <= i < |kids| && 0 <= j < |rest|
        ensures Before(t, kids[i].node, rest[j].node) && rest[j].level <= kids[i].level {
      assert Before(t, p, stack[j + 1].node);
      KidInOrder(t, p, kids[i].c, rest[j].node);
    }
    Stacked(t, key', kids, rest);
  }

  // ---- how much is left --------------------------------------------------------------------------------

  /** The nodes at or below x. */
  ghost predicate Under(t: Tree, x: Id, y: Id) {
    x in t.at && y in t.h && y in t.at && if t.IsTrie(x) then t.at[x] <= t.at[y] else y == x
  }

  ghost predicate UnderSome(t: Tree, stack: seq<Item>, y: Id) {
    exists i :: 0 <= i < |stack| && Under(t, stack[i].node, y)
  }

  ghost function Left(t: Tree, stack: seq<Item>): set<Id> {
    set y | y in t.h && UnderSome(t, stack, y)
  }

  // Some string is below every node.
  lemma RegionOf(t: Tree, x: Id) returns (k: Bytes)
    requires t.Shape() && x in t.h && x in t.at
    ensures Region(t, x, k)
    ensures forall y :: Under(t, y, x) ==> y in t.h ==> Region(t, y, k)
  {
    if t.h[x].Bucket? && !t.h[x].pure {
      assert t.HangsOk(x) && t.TrieOk(t.up[x]) && t.ChildOk(t.up[x], t.h[x].c0);
      k := t.at[x] + [t.h[x].c0];
    } else {
      k := t.at[x];
    }
  }

  lemma NotUnderLater(t: Tree, x: Id, y: Id)
    requires t.Shape() && x in t.h && x in t.at && y in t.h && Before(t, x, y)
    ensures !Under(t, y, x)
  {
    var k := RegionOf(t, x);
    LessIsStrict(k, k);
  }

  lemma KidIsUnder(t: Tree, p: Id, c: byte, y: Id)
    requires t.Shape() && t.IsTrie(p) && |t.h[p].xs| == NODE_CHILDS && p in t.at && Under(t, t.h[p].xs[c], y)
    ensures Under(t, p, y) && y != p
  {
    assert t.TrieOk(p) && t.ChildOk(p, c);
  }

  /** Each node is popped once: what is left shrinks. */
  lemma LessIsLeft(t: Tree, key: Bytes, stack: seq<Item>, stack': seq<Item>)
    requires t.Shape() && |stack| > 0 && StackOk(t, key, stack)
    requires if t.IsTrie(stack[0].node)
             then |t.h[stack[0].node].xs| == NODE_CHILDS
                  && stack' == AllKids(t, stack[0]) + stack[1..]
             else stack' == stack[1..]
    ensures |Left(t, stack')| < |Left(t, stack)|
  {
    var x := stack[0].node;
    assert ItemOk(t, key, stack[0]);
    forall y | y in Left(t, stack') ensures y in Left(t, stack) && y != x {
      var i :| 0 <= i < |stack'| && Under(t, stack'[i].node, y);
      var n := |stack'| - (|stack| - 1);
      if i >= n {
        assert stack'[i] == stack[i - n + 1];
        assert Under(t, stack[i - n + 1].node, y);
        assert Before(t, x, stack[i - n + 1].node) && ItemOk(t, key, stack[i - n + 1]);
        NotUnderLater(t, x, stack[i - n + 1].node);
      } else {
        KidsInLine(t.h[x].xs, stack[0].level + 1, |t.h[x].xs|);
        KidIsUnder(t, x, stack'[i].c, y);
        assert Under(t, stack[0].node, y);
      }
    }
    assert Under(t, stack[0].node, x) && x in Left(t, stack);
    Smaller(Left(t, stack'), Left(t, stack), x);
  }

  lemma Smaller<T>(a: set<T>, b: set<T>, x: T)
    requires a <= b && x in b && x !in a
    ensures |a| < |b|
  {
    assert b == a + (b - a) && x in b - a;
  }
}
