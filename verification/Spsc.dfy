/**
  The linked list under both queues of this repository for one producer and one consumer: lfq.c and the
  stailq_*_lf_spsc macros of main.h. Nodes before the divider are used up; the producer frees them.
 */
module Spsc {
  import opened Basics

  datatype Cell = Cell(val: int, link: Ptr)

  /** Allocated memory, and the three pointers of a queue. */
  datatype Queue = Queue(heap: map<Ptr, Cell>, first: Ptr, divider: Ptr, last: Ptr)

  function NewQueue(dummy: Ptr): Queue {
    Queue(map[dummy := Cell(0, NULL)], dummy, dummy, dummy)
  }

  // ---- the single memory accesses that change a queue ----------------------------------------------

  function Alloc(q: Queue, np: Ptr, v: int): Queue {
    q.(heap := q.heap[np := Cell(v, NULL)])
  }

  function SetLink(q: Queue, at: Ptr, np: Ptr): Queue
    requires at in q.heap
  {
    q.(heap := q.heap[at := q.heap[at].(link := np)])
  }

  function Release(q: Queue, p: Ptr): Queue {
    q.(heap := q.heap - {p})
  }

  // ---- the list -----------------------------------------------------------------------------------

  predicate NodeAt(q: Queue, l: seq<Ptr>, i: int)
    requires 0 <= i < |l|
  {
    l[i] != NULL && l[i] in q.heap && q.heap[l[i]].link == if i + 1 < |l| then l[i + 1] else NULL
  }

  predicate Differ(l: seq<Ptr>, i: int, j: int)
    requires 0 <= i < |l| && 0 <= j < |l|
  {
    l[i] != l[j]
  }

  predicate Known(l: seq<Ptr>, extra: set<Ptr>, p: Ptr) { p in l || p in extra }

  /** The nodes of l are linked from first to the end; besides them only the nodes of extra are allocated. */
  ghost predicate Listed(q: Queue, l: seq<Ptr>, extra: set<Ptr>) {
    && |l| > 0 && l[0] == q.first
    && (forall i {:trigger NodeAt(q, l, i)} :: 0 <= i < |l| ==> NodeAt(q, l, i))
    && (forall i, j {:trigger Differ(l, i, j)} :: 0 <= i < j < |l| ==> Differ(l, i, j))
    && (forall p :: p in extra ==> p !in l && p in q.heap && p != NULL)
    && (forall p {:trigger Known(l, extra, p)} :: p in q.heap ==> Known(l, extra, p))
  }

  lemma NewIsListed(dummy: Ptr)
    requires dummy != NULL
    ensures Listed(NewQueue(dummy), [dummy], {})
  {
  }

  lemma AllocKeeps(q: Queue, l: seq<Ptr>, extra: set<Ptr>, np: Ptr, v: int)
    requires Listed(q, l, extra) && np !in q.heap && np != NULL
    ensures Listed(Alloc(q, np, v), l, extra + {np})
    ensures forall i :: 0 <= i < |l| ==> l[i] in q.heap && l[i] != np && Alloc(q, np, v).heap[l[i]] == q.heap[l[i]]
  {
    var q' := Alloc(q, np, v);
    forall i | 0 <= i < |l| ensures NodeAt(q', l, i) && l[i] in q.heap { assert NodeAt(q, l, i); }
    forall p | p in q'.heap ensures Known(l, extra + {np}, p) { assert p == np || Known(l, extra, p); }
  }

  lemma LinkKeeps(q: Queue, l: seq<Ptr>, extra: set<Ptr>, np: Ptr)
    requires Listed(q, l, extra) && np in extra && np in q.heap && q.heap[np].link == NULL
    ensures l[|l| - 1] in q.heap && Listed(SetLink(q, l[|l| - 1], np), l + [np], extra - {np})
    ensures var q' := SetLink(q, l[|l| - 1], np);
            && np in q'.heap && q'.heap[np] == q.heap[np]
            && forall i :: 0 <= i < |l| ==> l[i] in q.heap && l[i] in q'.heap && q'.heap[l[i]].val == q.heap[l[i]].val
  {
    assert NodeAt(q, l, |l| - 1);
    var q', l' := SetLink(q, l[|l| - 1], np), l + [np];
    forall i | 0 <= i < |l'| ensures NodeAt(q', l', i) {
      if i < |l| {
        assert NodeAt(q, l, i);
        assert i < |l| - 1 ==> Differ(l, i, |l| - 1);
      }
    }
    forall i | 0 <= i < |l| ensures l[i] in q.heap { assert NodeAt(q, l, i); }
    forall i, j | 0 <= i < j < |l'| ensures Differ(l', i, j) {
      if j < |l| {
        assert Differ(l, i, j);
      } else {
        assert l[i] in l;
      }
    }
    forall p | p in q'.heap ensures Known(l', extra - {np}, p) { assert Known(l, extra, p); }
  }

  // The producer takes the first node off the list; it is still allocated.
  lemma FirstKeeps(q: Queue, l: seq<Ptr>, extra: set<Ptr>)
    requires Listed(q, l, extra) && |l| > 1
    ensures q.first in q.heap && Listed(q.(first := q.heap[q.first].link), l[1..], extra + {q.first})
  {
    assert NodeAt(q, l, 0);
    var q', l' := q.(first := q.heap[q.first].link), l[1..];
    forall i | 0 <= i < |l'| ensures NodeAt(q', l', i) && l'[i] != q.first {
      assert NodeAt(q, l, i + 1) && Differ(l, 0, i + 1);
    }
    forall i, j | 0 <= i < j < |l'| ensures Differ(l', i, j) { assert Differ(l, i + 1, j + 1); }
    assert forall p :: p in l ==> p == l[0] || p in l';
    forall p | p in q'.heap ensures Known(l', extra + {q.first}, p) { assert Known(l, extra, p); }
  }

  lemma ReleaseKeeps(q: Queue, l: seq<Ptr>, extra: set<Ptr>, p: Ptr)
    requires Listed(q, l, extra) && p in extra
    ensures Listed(Release(q, p), l, extra - {p})
    ensures forall i :: 0 <= i < |l| ==> l[i] in q.heap && l[i] != p && Release(q, p).heap[l[i]] == q.heap[l[i]]
  {
    var q' := Release(q, p);
    forall i | 0 <= i < |l| ensures NodeAt(q', l, i) && l[i] in q.heap && l[i] != p {
      assert NodeAt(q, l, i);
      assert l[i] in l;
    }
    forall r | r in q'.heap ensures Known(l, extra - {p}, r) { assert Known(l, extra, r); }
  }

  // The divider and the last pointer are not part of the list.
  lemma PointersKeep(q: Queue, q': Queue, l: seq<Ptr>, extra: set<Ptr>)
    requires Listed(q, l, extra) && q'.heap == q.heap && q'.first == q.first
    ensures Listed(q', l, extra)
  {
    forall i | 0 <= i < |l| ensures NodeAt(q', l, i) { assert NodeAt(q, l, i); }
  }

  lemma {:induction false} ListSize(l: seq<Ptr>)
    requires forall i, j :: 0 <= i < j < |l| ==> l[i] != l[j]
    ensures |set x | x in l| == |l|
  {
    if |l| > 0 {
      ListSize(l[1..]);
      assert (set x | x in l) == (set x | x in l[1..]) + {l[0]};
    }
  }

  /** With no node in hand, the nodes allocated are those of the list. */
  lemma HeapSize(q: Queue, l: seq<Ptr>)
    requires Listed(q, l, {})
    ensures |q.heap| == |l|
  {
    forall i, j | 0 <= i < j < |l| ensures l[i] != l[j] { assert Differ(l, i, j); }
    ListSize(l);
    forall p | p in l ensures p in q.heap {
      var k :| 0 <= k < |l| && l[k] == p;
      assert NodeAt(q, l, k);
    }
    forall p | p in q.heap ensures p in l { assert Known(l, {}, p); }
    assert q.heap.Keys == set x | x in l;
  }
}
