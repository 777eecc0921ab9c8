/**
  What perfect of lib/perfect/perfect.c does as long as every group can be placed at once: an order of the groups and a
  tab[] that is determined by the keys alone.
 */
module PerfectGreedy {
  import opened PerfectSearch
  import opened PerfectTable
  import Pigeonhole
  import opened Words

  ghost function KeysOf(s: Setup, b: int): set<nat> {
    set k: nat | 0 <= k < |s.keys| && s.keys[k].b == b
  }

  /** Groups with more keys come first, and among those with equally many the one with the smaller b. */
  ghost predicate Before(s: Setup, c: int, b: int) {
    |KeysOf(s, c)| > |KeysOf(s, b)| || (|KeysOf(s, c)| == |KeysOf(s, b)| && c < b)
  }

  ghost predicate IsTab(s: Setup, tab: seq<nat>) {
    (forall b :: 0 <= b < |tab| ==> tab[b] < |s.scramble|) && forall k :: s.IsKey(k) ==> s.keys[k].b < |tab|
  }

  /** With value v the keys of group b are in range and hit no key of the groups before it. */
  ghost predicate Free(s: Setup, tab: seq<nat>, b: int, v: nat)
    requires IsTab(s, tab) && v < |s.scramble|
  {
    forall k :: InGroup(s, k, b) ==>
      && s.Hash(k, v) < s.highhash
      && forall l :: s.IsKey(l) && Before(s, s.keys[l].b, b) ==> s.Hash(l, tab[s.keys[l].b]) != s.Hash(k, v)
  }

  ghost predicate IsLeast(s: Setup, tab: seq<nat>, b: int, v: nat)
    requires IsTab(s, tab) && v < |s.scramble|
  {
    Free(s, tab, b, v) && forall u :: 0 <= u < v ==> !Free(s, tab, b, u)
  }

  /** Every group with keys has the least value with which it does not disturb the groups before it. */
  ghost predicate Greedy(s: Setup, tab: seq<nat>) {
    IsTab(s, tab) && forall b :: 0 <= b < |tab| && KeysOf(s, b) != {} ==> IsLeast(s, tab, b, tab[b])
  }

  /**
    The groups mapped when the loops of perfect stand at size j and index i: larger ones, and those of size j below i.
   */
  ghost function Done(tb: seq<BStuff>, j: nat, i: nat): set<nat> {
    set b | 0 <= b < |tb| && |tb[b].list| > 0 && (|tb[b].list| > j || (|tb[b].list| == j && b < i))
  }

  /** All groups before the item are mapped when its turn comes, and no other. */
  ghost function MappedBefore(tb: seq<BStuff>, item: nat): set<nat>
    requires item < |tb|
  {
    Done(tb, |tb[item].list|, item)
  }

  lemma ListIsGroup(s: Setup, tb: seq<BStuff>, b: nat)
    requires s.Grouped(tb) && b < |tb|
    ensures |tb[b].list| == |KeysOf(s, b)|
  {
    assert s.GroupOk(b, tb[b]);
    var list := tb[b].list;
    Pigeonhole.DistinctElements(list);
    forall k: nat | k in KeysOf(s, b) ensures k in list { assert s.IsKey(k); }
    assert KeysOf(s, b) == Pigeonhole.Elements(list);
  }

  lemma MappedAreBefore(s: Setup, tb: seq<BStuff>, item: nat, b: nat)
    requires s.Grouped(tb) && item < |tb| && |tb[item].list| > 0 && b < |tb|
    ensures b in MappedBefore(tb, item) <==> Before(s, b, item)
  {
    ListIsGroup(s, tb, b);
    ListIsGroup(s, tb, item);
  }

  ghost function Values(tb: seq<BStuff>): seq<nat> {
    seq(|tb|, b requires 0 <= b < |tb| => tb[b].val)
  }

  ghost predicate AgreeOn(tab: seq<nat>, tb: seq<BStuff>, groups: set<nat>) {
    |tab| == |tb| && forall b :: b in groups && b < |tb| ==> tab[b] == tb[b].val
  }

  /** What fits at once is what is free of the groups before. */
  lemma FitsIsFree(s: Setup, tb: seq<BStuff>, th: seq<int>, item: nat, tab: seq<nat>, v: nat)
    requires item < |tb| && |tb[item].list| > 0 && s.Valid(tb, th, MappedBefore(tb, item)) && v < |s.scramble|
    requires IsTab(s, tab) && AgreeOn(tab, tb, MappedBefore(tb, item))
    ensures Fits(s, th, item, v) <==> Free(s, tab, item, v)
  {
    if Fits(s, th, item, v) {
      forall k, l | InGroup(s, k, item) && s.IsKey(l) && Before(s, s.keys[l].b, item)
        ensures s.Hash(l, tab[s.keys[l].b]) != s.Hash(k, v)
      {
        MappedAreBefore(s, tb, item, s.keys[l].b);
        assert s.Complete(tb, th, s.keys[l].b);
        assert s.Final(tb, l) == s.Hash(l, tab[s.keys[l].b]);
      }
    }
    if Free(s, tab, item, v) {
      forall k | InGroup(s, k, item)
        ensures s.Hash(k, v) < s.highhash && th[s.Hash(k, v)] == NIL
      {
        var x := th[s.Hash(k, v)];
        if x != NIL {
          assert s.Final(tb, x) == s.Hash(k, v) && s.keys[x].b in MappedBefore(tb, item);
          assert tab[s.keys[x].b] == tb[s.keys[x].b].val;
          MappedAreBefore(s, tb, item, s.keys[x].b);
        }
      }
    }
  }

  // Whether a value is free depends on the groups before only.
  lemma FreeDepends(s: Setup, tab: seq<nat>, tab': seq<nat>, b: int, v: nat)
    requires IsTab(s, tab) && IsTab(s, tab') && |tab| == |tab'| && v < |s.scramble|
    requires forall c :: 0 <= c < |tab| && Before(s, c, b) ==> tab[c] == tab'[c]
    ensures Free(s, tab, b, v) <==> Free(s, tab', b, v)
  {
  }

  // ---- the loops of perfect against the greedy tab ---------------------------------------------------

  /** The groups mapped have their greedy values. */
  ghost predicate GreedyUpTo(s: Setup, tb: seq<BStuff>, groups: set<nat>) {
    IsTab(s, Values(tb)) && forall b :: b in groups && b < |tb| ==> IsLeast(s, Values(tb), b, Values(tb)[b])
  }

  /** Whatever greedy tab there is, it begins with the values given so far. */
  ghost predicate AgreesWithAll(s: Setup, tb: seq<BStuff>, groups: set<nat>) {
    forall tab: seq<nat> :: |tab| == |tb| && Greedy(s, tab) ==> AgreeOn(tab, tb, groups)
  }

  // A greedy tab fits where the search stands, so that the item gets its value.
  lemma GreedyFits(s: Setup, tb: seq<BStuff>, th: seq<int>, item: nat, tab: seq<nat>)
    requires item < |tb| && |tb[item].list| > 0 && s.Valid(tb, th, MappedBefore(tb, item))
    requires |tab| == |tb| && Greedy(s, tab) && AgreeOn(tab, tb, MappedBefore(tb, item))
    ensures Fits(s, th, item, tab[item]) && NoneFits(s, th, item, tab[item])
  {
    ListIsGroup(s, tb, item);
    assert IsLeast(s, tab, item, tab[item]);
    FitsIsFree(s, tb, th, item, tab, tab[item]);
    forall v | 0 <= v < tab[item] ensures !Fits(s, th, item, v) { FitsIsFree(s, tb, th, item, tab, v); }
  }

  lemma FirstFitAgrees(s: Setup, tb0: seq<BStuff>, th: seq<int>, tb: seq<BStuff>, p: seq<Move>, item: nat,
                       limit: nat, tab: seq<nat>)
    requires item < |tb0| && |tb0[item].list| > 0 && s.Valid(tb0, th, MappedBefore(tb0, item)) && limit == |s.scramble|
    requires |tab| == |tb0| && Greedy(s, tab) && AgreeOn(tab, tb0, MappedBefore(tb0, item))
    requires Shifted(tb0, tb, p, 0) && (FirstFit(s, th, p, item, limit) || NoneFits(s, th, item, limit))
    ensures AgreeOn(tab, tb, MappedBefore(tb0, item) + {item})
  {
    GreedyFits(s, tb0, th, item, tab);
    assert p[0].v == tab[item];
  }

  lemma AgreesWithAllStep(s: Setup, tb0: seq<BStuff>, th: seq<int>, tb: seq<BStuff>, p: seq<Move>, item: nat,
                          limit: nat)
    requires item < |tb0| && |tb0[item].list| > 0 && s.Valid(tb0, th, MappedBefore(tb0, item)) && limit == |s.scramble|
    requires AgreesWithAll(s, tb0, MappedBefore(tb0, item))
    requires Shifted(tb0, tb, p, 0) && (FirstFit(s, th, p, item, limit) || NoneFits(s, th, item, limit))
    ensures AgreesWithAll(s, tb, MappedBefore(tb0, item) + {item})
  {
    forall tab: seq<nat> | |tab| == |tb| && Greedy(s, tab)
      ensures AgreeOn(tab, tb, MappedBefore(tb0, item) + {item})
    {
      FirstFitAgrees(s, tb0, th, tb, p, item, limit, tab);
    }
  }

  lemma NoneFitsMeansNoGreedy(s: Setup, tb: seq<BStuff>, th: seq<int>, item: nat, tab: seq<nat>)
    requires item < |tb| && |tb[item].list| > 0 && s.Valid(tb, th, MappedBefore(tb, item))
    requires AgreesWithAll(s, tb, MappedBefore(tb, item)) && NoneFits(s, th, item, |s.scramble|) && |tab| == |tb|
    ensures !Greedy(s, tab)
  {
    if Greedy(s, tab) {
      GreedyFits(s, tb, th, item, tab);
    }
  }

  lemma ValuesAreTab(s: Setup, tb: seq<BStuff>)
    requires s.Legal(tb)
    ensures IsTab(s, Values(tb))
  {
  }

  // A first fit makes one more group greedy, and leaves those before it greedy.
  lemma GreedyStep(s: Setup, tb0: seq<BStuff>, th: seq<int>, tb: seq<BStuff>, p: seq<Move>, item: nat, limit: nat)
    requires item < |tb0| && |tb0[item].list| > 0 && s.Valid(tb0, th, MappedBefore(tb0, item)) && limit == |s.scramble|
    requires GreedyUpTo(s, tb0, MappedBefore(tb0, item)) && s.Legal(tb)
    requires Shifted(tb0, tb, p, 0) && FirstFit(s, th, p, item, limit)
    ensures GreedyUpTo(s, tb, MappedBefore(tb0, item) + {item})
  {
    ValuesAreTab(s, tb);
    forall b | b in MappedBefore(tb0, item) + {item} && b < |tb|
      ensures IsLeast(s, Values(tb), b, Values(tb)[b])
    {
      if b == item {
        FirstFitIsLeast(s, tb0, th, tb, p, item, limit);
      } else {
        StillLeast(s, tb0, tb, p, item, b);
      }
    }
  }

  lemma FirstFitIsLeast(s: Setup, tb0: seq<BStuff>, th: seq<int>, tb: seq<BStuff>, p: seq<Move>, item: nat, limit: nat)
    requires item < |tb0| && |tb0[item].list| > 0 && s.Valid(tb0, th, MappedBefore(tb0, item)) && limit == |s.scramble|
    requires IsTab(s, Values(tb)) && Shifted(tb0, tb, p, 0) && FirstFit(s, th, p, item, limit)
    ensures IsLeast(s, Values(tb), item, Values(tb)[item])
  {
    var v := p[0].v;
    assert tb[p[0].b].val == v;
    assert AgreeOn(Values(tb), tb0, MappedBefore(tb0, item));
    FitsIsFree(s, tb0, th, item, Values(tb), v);
    forall u | 0 <= u < v ensures !Free(s, Values(tb), item, u) { FitsIsFree(s, tb0, th, item, Values(tb), u); }
  }

  lemma StillLeast(s: Setup, tb0: seq<BStuff>, tb: seq<BStuff>, p: seq<Move>, item: nat, b: nat)
    requires s.Grouped(tb0) && item < |tb0| && |tb0[item].list| > 0 && b in MappedBefore(tb0, item) && b < |tb0|
    requires IsTab(s, Values(tb0)) && IsTab(s, Values(tb)) && Shifted(tb0, tb, p, 0) && |p| == 1 && p[0].b == item
    requires IsLeast(s, Values(tb0), b, Values(tb0)[b])
    ensures IsLeast(s, Values(tb), b, Values(tb)[b])
  {
    assert Values(tb)[b] == Values(tb0)[b];
    MappedAreBefore(s, tb0, item, b);
    forall u | 0 <= u <= Values(tb)[b] ensures Free(s, Values(tb), b, u) <==> Free(s, Values(tb0), b, u) {
      FreeDepends(s, Values(tb), Values(tb0), b, u);
    }
  }

  /** Where all a are different and below highhash, zero everywhere is greedy. */
  lemma ZeroIsGreedy(s: Setup, blen: nat)
    requires |s.scramble| > 0 && s.scramble[0] == 0
    requires forall k :: s.IsKey(k) ==> s.keys[k].b < blen && s.keys[k].a < s.highhash
    requires forall k, l :: 0 <= k < l < |s.keys| ==> s.keys[k].a != s.keys[l].a
    ensures Greedy(s, seq(blen, _ => 0))
  {
    forall k | s.IsKey(k) ensures s.Hash(k, 0) == s.keys[k].a { XorZero(s.keys[k].a); }
  }
}
