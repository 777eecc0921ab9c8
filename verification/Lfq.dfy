/** The queue of lfq.c, one producer and one consumer interleaved at each access to shared memory. */
module Lfq {
  import opened Basics
  import opened Spsc

  /** Where the producer stands in lfq_in; the value it enqueues and nodes it has in hand. */
  datatype Producer =
    | POut
    | PLink(np: Ptr, v: int)
    | PPublish(v: int)
    | TrimTest
    | TrimTake
    | TrimFree(tmp: Ptr)

  /** Where the consumer stands in lfq_out. */
  datatype Consumer = COut | CLink | CValue(n: Ptr) | CNext(result: int) | CAdvance(result: int, n: Ptr)

  /** The queue with, as history, the values published and the values returned. */
  datatype State = State(q: Queue, prod: Producer, cons: Consumer, ins: seq<int>, outs: seq<int>)

  datatype Action =
    | CallIn(v: int, np: Ptr)
    | Prod
    | CallOut
    | Cons

  function Start(dummy: Ptr): State {
    State(NewQueue(dummy), POut, COut, [], [])
  }

  /** malloc returns some address that is not in use; NULL is not a value. */
  predicate Enabled(s: State, a: Action) {
    match a
    case CallIn(v, np) => s.prod == POut && v != NULL && np != NULL && np !in s.q.heap
    case Prod => s.prod != POut
    case CallOut => s.cons == COut
    case Cons => s.cons != COut
  }

  /** The step reads, writes and frees only memory that is allocated. */
  predicate Safe(s: State, a: Action) {
    match a
    case CallIn(_, _) => true
    case CallOut => true
    case Prod =>
      (match s.prod
       case POut => true
       case PLink(np, v) => s.q.last in s.q.heap
       case PPublish(v) => s.q.last in s.q.heap
       case TrimTest => true
       case TrimTake => s.q.first in s.q.heap
       case TrimFree(tmp) => tmp in s.q.heap)
    case Cons =>
      (match s.cons
       case COut => true
       case CLink => s.q.divider in s.q.heap
       case CValue(n) => n in s.q.heap
       case CNext(_) => s.q.divider in s.q.heap
       case CAdvance(_, _) => true)
  }

  function Produce(s: State): State
    requires Safe(s, Prod)
  {
    match s.prod
    case POut => s
    case PLink(np, v) => s.(q := SetLink(s.q, s.q.last, np), prod := PPublish(v))
    case PPublish(v) => s.(q := s.q.(last := s.q.heap[s.q.last].link), prod := TrimTest, ins := s.ins + [v])
    case TrimTest => s.(prod := if s.q.first == s.q.divider then POut else TrimTake)
    case TrimTake => s.(q := s.q.(first := s.q.heap[s.q.first].link), prod := TrimFree(s.q.first))
    case TrimFree(tmp) => s.(q := Release(s.q, tmp), prod := TrimTest)
  }

  function Consume(s: State): State
    requires Safe(s, Cons)
  {
    match s.cons
    case COut => s
    case CLink => s.(cons := CValue(s.q.heap[s.q.divider].link))
    case CValue(n) => s.(cons := CNext(s.q.heap[n].val))
    case CNext(result) => s.(cons := CAdvance(result, s.q.heap[s.q.divider].link))
    case CAdvance(result, n) => s.(q := s.q.(divider := n), cons := COut, outs := s.outs + [result])
  }

  /** lfq_out reads last once; that read decides between NULL and a value. */
  predicate ReturnsNull(s: State) { s.q.divider == s.q.last }

  function Do(s: State, a: Action): State
    requires Enabled(s, a) && Safe(s, a)
  {
    match a
    case CallIn(v, np) => s.(q := Alloc(s.q, np, v), prod := PLink(np, v))
    case Prod => Produce(s)
    case CallOut => if ReturnsNull(s) then s else s.(cons := CLink)
    case Cons => Consume(s)
  }

  ghost predicate IsRun(run: seq<State>, actions: seq<Action>, dummy: Ptr) {
    && |run| == |actions| + 1 && dummy != NULL && run[0] == Start(dummy)
    && forall i :: 0 <= i < |actions| ==>
         Enabled(run[i], actions[i]) && Safe(run[i], actions[i]) && run[i + 1] == Do(run[i], actions[i])
  }

  // ---- the invariant --------------------------------------------------------------------------------

  function InHand(p: Producer): set<Ptr> {
    match p
    case PLink(np, _) => {np}
    case TrimFree(tmp) => {tmp}
    case _ => {}
  }

  // The index of the last published node: a node may be linked and not published yet.
  function LastIndex(s: State, l: seq<Ptr>): int {
    if s.prod.PPublish? then |l| - 2 else |l| - 1
  }

  ghost predicate Values(q: Queue, l: seq<Ptr>, d: int, j: int, pending: seq<int>) {
    && 0 <= d <= j < |l| && |pending| == j - d
    && forall k :: d < k <= j ==> l[k] in q.heap && q.heap[l[k]].val == pending[k - d - 1]
  }

  ghost predicate ProducerOk(s: State, l: seq<Ptr>, d: int) {
    match s.prod
    case PLink(np, v) => np in s.q.heap && s.q.heap[np] == Cell(v, NULL) && v != NULL
    case PPublish(v) => v != NULL && |l| > 1 && l[|l| - 1] in s.q.heap && s.q.heap[l[|l| - 1]].val == v
    case TrimTake => d >= 1
    case _ => true
  }

  ghost predicate ConsumerOk(s: State, l: seq<Ptr>, d: int) {
    match s.cons
    case COut => true
    case CLink => d < LastIndex(s, l)
    case CValue(n) => 0 <= d < LastIndex(s, l) && d + 1 < |l| && n == l[d + 1]
    case CNext(result) => d < LastIndex(s, l) && |s.outs| < |s.ins| && result == s.ins[|s.outs|]
    case CAdvance(result, n) =>
      && 0 <= d < LastIndex(s, l) && d + 1 < |l| && n == l[d + 1]
      && |s.outs| < |s.ins| && result == s.ins[|s.outs|]
  }

  ghost predicate Inv(s: State, l: seq<Ptr>, d: int) {
    && Listed(s.q, l, InHand(s.prod))
    && 0 <= d <= LastIndex(s, l) && s.q.divider == l[d] && s.q.last == l[LastIndex(s, l)]
    && s.outs <= s.ins && Values(s.q, l, d, LastIndex(s, l), s.ins[|s.outs|..])
    && (forall v :: v in s.ins ==> v != NULL)
    && ProducerOk(s, l, d) && ConsumerOk(s, l, d)
  }

  ghost predicate InvSome(s: State) {
    exists l, d :: Inv(s, l, d)
  }

  lemma ActionIsSafe(s: State, a: Action, l: seq<Ptr>, d: int)
    requires Inv(s, l, d) && Enabled(s, a)
    ensures Safe(s, a)
  {
    assert NodeAt(s.q, l, 0) && NodeAt(s.q, l, d) && NodeAt(s.q, l, LastIndex(s, l));
    if s.cons.CValue? {
      assert NodeAt(s.q, l, d + 1);
    }
  }

  lemma CallInKeeps(s: State, v: int, np: Ptr, l: seq<Ptr>, d: int)
    requires Inv(s, l, d) && Enabled(s, CallIn(v, np))
    ensures Inv(Do(s, CallIn(v, np)), l, d)
  {
    AllocKeeps(s.q, l, {}, np, v);
    assert {} + {np} == {np};
  }

  lemma LinkStep(s: State, l: seq<Ptr>, d: int)
    requires Inv(s, l, d) && s.prod.PLink? && Safe(s, Prod)
    ensures Inv(Produce(s), l + [s.prod.np], d)
  {
    LinkKeeps(s.q, l, {s.prod.np}, s.prod.np);
    assert {s.prod.np} - {s.prod.np} == {};
  }

  lemma PublishStep(s: State, l: seq<Ptr>, d: int)
    requires Inv(s, l, d) && s.prod.PPublish? && Safe(s, Prod)
    ensures Inv(Produce(s), l, d)
  {
    var s' := Produce(s);
    assert NodeAt(s.q, l, |l| - 2);
    PointersKeep(s.q, s'.q, l, {});
    assert s'.ins[|s.outs|..] == s.ins[|s.outs|..] + [s.prod.v];
  }

  lemma TrimStep(s: State, l: seq<Ptr>, d: int)
    requires Inv(s, l, d) && Safe(s, Prod) && (s.prod == TrimTest || s.prod == TrimTake || s.prod.TrimFree?)
    ensures InvSome(Produce(s))
  {
    var s' := Produce(s);
    match s.prod
    case TrimTest =>
      assert d == 0 ==> s.q.first == s.q.divider;
      assert Inv(s', l, d);
    case TrimTake =>
      FirstKeeps(s.q, l, {});
      assert {} + {s.q.first} == {s.q.first};
      assert Inv(s', l[1..], d - 1);
    case TrimFree(tmp) =>
      ReleaseKeeps(s.q, l, {tmp}, tmp);
      assert {tmp} - {tmp} == {};
      assert Inv(s', l, d);
  }

  lemma ConsumeStep(s: State, l: seq<Ptr>, d: int)
    requires Inv(s, l, d) && s.cons != COut && Safe(s, Cons)
    ensures InvSome(Consume(s))
  {
    var s' := Consume(s);
    assert NodeAt(s.q, l, d);
    match s.cons
    case CLink => assert Inv(s', l, d);
    case CValue(n) => assert Inv(s', l, d);
    case CNext(_) => assert Inv(s', l, d);
    case CAdvance(_, _) =>
      PointersKeep(s.q, s'.q, l, InHand(s.prod));
      assert s'.ins[|s'.outs|..] == s.ins[|s.outs|..][1..];
      assert Inv(s', l, d + 1);
  }

  /** A consumer sees NULL exactly if everything published has been returned. */
  lemma NullIffEmpty(s: State, l: seq<Ptr>, d: int)
    requires Inv(s, l, d)
    ensures ReturnsNull(s) <==> s.outs == s.ins
  {
    assert d < LastIndex(s, l) ==> Differ(l, d, LastIndex(s, l));
  }

  lemma ActionKeeps(s: State, a: Action)
    requires InvSome(s) && Enabled(s, a)
    ensures Safe(s, a) && InvSome(Do(s, a))
  {
    var l, d :| Inv(s, l, d);
    ActionIsSafe(s, a, l, d);
    match a
    case CallIn(v, np) => CallInKeeps(s, v, np, l, d);
    case Prod =>
      if s.prod.PLink? {
        LinkStep(s, l, d);
      } else if s.prod.PPublish? {
        PublishStep(s, l, d);
      } else {
        TrimStep(s, l, d);
      }
    case CallOut =>
      NullIffEmpty(s, l, d);
      assert Inv(Do(s, a), l, d);
    case Cons => ConsumeStep(s, l, d);
  }

  lemma {:induction false} RunKeeps(run: seq<State>, actions: seq<Action>, dummy: Ptr, i: nat)
    requires IsRun(run, actions, dummy) && i < |run|
    ensures InvSome(run[i])
  {
    if i == 0 {
      NewIsListed(dummy);
      assert Inv(run[0], [dummy], 0);
    } else {
      RunKeeps(run, actions, dummy, i - 1);
      assert run[i - 1 + 1] == Do(run[i - 1], actions[i - 1]);
      ActionKeeps(run[i - 1], actions[i - 1]);
    }
  }

  // ---- what the callers gave and got ---------------------------------------------------------------

  /** The arguments of the first i calls of lfq_in, in order. */
  ghost function Given(actions: seq<Action>, i: nat): seq<int>
    requires i <= |actions|
  {
    if i == 0 then []
    else Given(actions, i - 1) + if actions[i - 1].CallIn? then [actions[i - 1].v] else []
  }

  /** What lfq_out returned when the consumer came back from it, in order, without the NULLs. */
  ghost function Got(run: seq<State>, actions: seq<Action>, i: nat): seq<int>
    requires i <= |actions| < |run|
  {
    if i == 0 then []
    else if actions[i - 1] == Cons && run[i - 1].cons.CAdvance? && run[i].cons == COut then
      Got(run, actions, i - 1) + [run[i - 1].cons.result]
    else Got(run, actions, i - 1)
  }

  /** How often lfq_out was called when some published value was not returned yet. */
  ghost function CalledInTime(run: seq<State>, actions: seq<Action>, i: nat): nat
    requires i <= |actions| < |run|
  {
    if i == 0 then 0
    else CalledInTime(run, actions, i - 1)
         + if actions[i - 1] == CallOut && Got(run, actions, i - 1) != Published(run, actions, i - 1) then 1 else 0
  }

  /** The value of a call of lfq_in that has not published it yet. */
  function Unpublished(p: Producer): seq<int> {
    match p
    case PLink(_, v) => [v]
    case PPublish(v) => [v]
    case _ => []
  }

  /** The arguments of lfq_in but that of a call which is still before its write of last. */
  ghost function Published(run: seq<State>, actions: seq<Action>, i: nat): seq<int>
    requires i <= |actions| < |run|
  {
    var given := Given(actions, i);
    if |given| < |Unpublished(run[i].prod)| then [] else given[..|given| - |Unpublished(run[i].prod)|]
  }

  /** What is published are the callers' values in their order; the last one may be in the producer's hand. */
  lemma {:induction false} InsAreGiven(run: seq<State>, actions: seq<Action>, dummy: Ptr, i: nat)
    requires IsRun(run, actions, dummy) && i < |run|
    ensures Given(actions, i) == run[i].ins + Unpublished(run[i].prod)
    ensures Published(run, actions, i) == run[i].ins
  {
    if i > 0 {
      InsAreGiven(run, actions, dummy, i - 1);
      assert run[i - 1 + 1] == Do(run[i - 1], actions[i - 1]);
    }
  }

  lemma {:induction false} OutsAreGot(run: seq<State>, actions: seq<Action>, dummy: Ptr, i: nat)
    requires IsRun(run, actions, dummy) && i < |run|
    ensures Got(run, actions, i) == run[i].outs
  {
    if i > 0 {
      OutsAreGot(run, actions, dummy, i - 1);
      assert run[i - 1 + 1] == Do(run[i - 1], actions[i - 1]);
    }
  }

  lemma {:induction false} CallsAreAnswered(run: seq<State>, actions: seq<Action>, dummy: Ptr, i: nat)
    requires IsRun(run, actions, dummy) && i < |run|
    ensures |run[i].outs| + (if run[i].cons == COut then 0 else 1) == CalledInTime(run, actions, i)
  {
    if i > 0 {
      CallsAreAnswered(run, actions, dummy, i - 1);
      OutsAreGot(run, actions, dummy, i - 1);
      InsAreGiven(run, actions, dummy, i - 1);
      NullOnlyIfEmpty(run, actions, dummy, i - 1);
    }
  }

  lemma NullOnlyIfEmpty(run: seq<State>, actions: seq<Action>, dummy: Ptr, i: nat)
    requires IsRun(run, actions, dummy) && i < |actions|
    ensures actions[i] == CallOut ==> (run[i + 1].cons == COut <==> run[i].outs == run[i].ins)
    ensures actions[i] == CallOut ==> run[i].cons == COut && run[i + 1].outs == run[i].outs
    ensures actions[i] != CallOut ==>
      |run[i + 1].outs| + (if run[i + 1].cons == COut then 0 else 1)
      == |run[i].outs| + if run[i].cons == COut then 0 else 1
  {
    RunKeeps(run, actions, dummy, i);
    var l, d :| Inv(run[i], l, d);
    NullIffEmpty(run[i], l, d);
    assert run[i + 1] == Do(run[i], actions[i]);
  }

  /**
   * In every state of every run: what lfq_out has returned is a prefix of the arguments of lfq_in, in order; each
   * call made while some published value was left returns one, so that NULL comes exactly from an empty queue;
   * and no possible next step touches memory that is not allocated.
   */
  lemma QueueIsFifo(run: seq<State>, actions: seq<Action>, dummy: Ptr, i: nat)
    requires IsRun(run, actions, dummy) && i < |run|
    ensures Got(run, actions, i) <= Published(run, actions, i) <= Given(actions, i)
    ensures Given(actions, i) == Published(run, actions, i) + Unpublished(run[i].prod)
    ensures |Got(run, actions, i)| + (if run[i].cons == COut then 0 else 1) == CalledInTime(run, actions, i)
    ensures i < |actions| && actions[i] == CallOut ==>
      (run[i + 1].cons == COut <==> Got(run, actions, i) == Published(run, actions, i))
    ensures NULL !in Given(actions, i)
    ensures forall a :: Enabled(run[i], a) ==> Safe(run[i], a)
  {
    InsAreGiven(run, actions, dummy, i);
    OutsAreGot(run, actions, dummy, i);
    CallsAreAnswered(run, actions, dummy, i);
    RunKeeps(run, actions, dummy, i);
    var l, d :| Inv(run[i], l, d);
    if i < |actions| {
      NullOnlyIfEmpty(run, actions, dummy, i);
    }
    forall a | Enabled(run[i], a) ensures Safe(run[i], a) { ActionIsSafe(run[i], a, l, d); }
  }

  // How far lfq_in and lfq_out still have to go.
  function StepsToPublish(p: Producer): nat {
    match p
    case PLink(_, _) => 2
    case PPublish(_) => 1
    case _ => 0
  }

  function StepsToFree(p: Producer): nat {
    match p
    case TrimTest => 2
    case TrimTake => 1
    case _ => 0
  }

  function StepsToReturn(c: Consumer): nat {
    match c
    case COut => 0
    case CLink => 4
    case CValue(_) => 3
    case CNext(_) => 2
    case CAdvance(_, _) => 1
  }

  /**
   * Neither side waits for the other: lfq_out returns after four steps, and lfq_in publishes after two and then
   * frees a node every three steps, while the other side changes nothing that its progress depends on.
   */
  lemma NobodyWaits(run: seq<State>, actions: seq<Action>, dummy: Ptr, i: nat)
    requires IsRun(run, actions, dummy) && i < |actions|
    ensures var s, s' := run[i], run[i + 1];
      match actions[i]
      case Cons => StepsToReturn(s'.cons) == StepsToReturn(s.cons) - 1 && s'.prod == s.prod && s'.q.heap == s.q.heap
      case Prod =>
        && s'.cons == s.cons
        && if s.prod.PLink? || s.prod.PPublish? then StepsToPublish(s'.prod) == StepsToPublish(s.prod) - 1
           else if s.prod.TrimFree? then s'.prod == TrimTest && |s'.q.heap| < |s.q.heap|
           else s'.prod == POut || StepsToFree(s'.prod) == StepsToFree(s.prod) - 1
      case CallIn(_, _) => s'.cons == s.cons && s'.prod != POut
      case CallOut => s'.prod == s.prod && s'.q.heap == s.q.heap
  {
    assert run[i + 1] == Do(run[i], actions[i]);
    var s := run[i];
    if actions[i] == Prod && s.prod.TrimFree? {
      assert run[i + 1].q.heap.Keys == s.q.heap.Keys - {s.prod.tmp};
      assert |run[i + 1].q.heap| == |run[i + 1].q.heap.Keys| && |s.q.heap| == |s.q.heap.Keys|;
    }
  }

  /** Once lfq_in has returned, all that is allocated is the divider and the values still to come: the rest is freed. */
  lemma NothingLeaks(run: seq<State>, actions: seq<Action>, dummy: Ptr, i: nat)
    requires IsRun(run, actions, dummy) && i < |actions| && actions[i] == Prod
    requires run[i].prod == TrimTest && run[i + 1].prod == POut
    ensures |run[i].q.heap| == 1 + |Published(run, actions, i)| - |Got(run, actions, i)|
  {
    RunKeeps(run, actions, dummy, i);
    InsAreGiven(run, actions, dummy, i);
    OutsAreGot(run, actions, dummy, i);
    var s := run[i];
    assert run[i + 1] == Do(run[i], actions[i]);
    var l, d :| Inv(s, l, d);
    assert d > 0 ==> Differ(l, 0, d);
    HeapSize(s.q, l);
  }

  /** lfq_delete on a queue at rest follows the list from first and frees every node. */
  method Delete(q0: Queue, ghost nodes: seq<Ptr>) returns (q: Queue)
    requires Listed(q0, nodes, {})
    ensures q.first == NULL && q.heap == map[]
  {
    assert NodeAt(q0, nodes, 0);
    q := q0;
    ghost var l := nodes;
    while q.first != NULL
      invariant if q.first == NULL then q.heap == map[] else Listed(q, l, {})
      decreases |l|
    {
      DropFirst(q, l);
      var tmp := q.first;
      q := q.(first := q.heap[tmp].link);
      q := Release(q, tmp);
      l := l[1..];
    }
  }

  lemma DropFirst(q: Queue, l: seq<Ptr>)
    requires Listed(q, l, {})
    ensures q.first in q.heap
    ensures var q' := Release(q.(first := q.heap[q.first].link), q.first);
            if q'.first == NULL then q'.heap == map[] else Listed(q', l[1..], {})
  {
    assert NodeAt(q, l, 0);
    if |l| > 1 {
      FirstKeeps(q, l, {});
      assert NodeAt(q, l, 1) && {q.first} - {q.first} == {} && {} + {q.first} == {q.first};
      ReleaseKeeps(q.(first := q.heap[q.first].link), l[1..], {q.first}, q.first);
    } else {
      forall p | p in q.heap ensures p == l[0] { assert Known(l, {}, p); }
    }
  }
}
