/** Counting arguments over finite sets of numbers. */
module Pigeonhole {
  /** The numbers below n. */
  function Below(n: nat): (r: set<nat>)
    ensures |r| == n && forall x: nat :: x in r <==> x < n
  {
    if n == 0 then {} else Below(n - 1) + {n - 1}
  }

  function Elements(s: seq<nat>): set<nat> {
    set x | x in s
  }

  lemma {:induction false} DistinctElements(s: seq<nat>)
    requires forall i, j :: 0 <= i < j < |s| ==> s[i] != s[j]
    ensures |Elements(s)| == |s|
  {
    if s != [] {
      var last := |s| - 1;
      DistinctElements(s[..last]);
      assert Elements(s) == Elements(s[..last]) + {s[last]};
    }
  }

  lemma SubsetOfSameSize(a: set<nat>, b: set<nat>)
    requires a <= b && |a| == |b|
    ensures a == b
  {
    if a != b {
      var x :| x in b && x !in a;
      SizeOfSubset(a, b - {x});
    }
  }

  lemma {:induction false} SizeOfSubset(a: set<nat>, b: set<nat>)
    requires a <= b
    ensures |a| <= |b|
  {
    if a != {} {
      var x :| x in a;
      SizeOfSubset(a - {x}, b - {x});
    }
  }

  /** A map into fewer values than it has keys takes some value twice. */
  lemma {:induction false} Collision(m: map<nat, nat>, keys: set<nat>, values: set<nat>) returns (x: nat, y: nat)
    requires keys <= m.Keys && |values| < |keys|
    requires forall k :: k in keys ==> m[k] in values
    ensures x in keys && y in keys && x != y && m[x] == m[y]
    decreases |keys|
  {
    x :| x in keys;
    if k :| k in keys && k != x && m[k] == m[x] {
      y := k;
    } else {
      x, y := Collision(m, keys - {x}, values - {m[x]});
    }
  }

  lemma CollisionWithout(m: map<nat, nat>, nodes: set<nat>, item: nat) returns (x: nat, y: nat)
    requires m.Keys == nodes && item in nodes && forall k :: k in nodes ==> m[k] in nodes - {item}
    ensures x in nodes && y in nodes && x != y && m[x] == m[y]
  {
    x, y := Collision(m, nodes, nodes - {item});
  }

  /** n distinct numbers below n are all of them. */
  lemma Onto(s: seq<nat>, v: nat)
    requires forall i, j :: 0 <= i < j < |s| ==> s[i] != s[j]
    requires forall i :: 0 <= i < |s| ==> s[i] < |s|
    requires v < |s|
    ensures exists i :: 0 <= i < |s| && s[i] == v
  {
    DistinctElements(s);
    SubsetOfSameSize(Elements(s), Below(|s|));
    assert v in Elements(s);
  }
}
