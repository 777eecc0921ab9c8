/**
  The event loop of main.c with its workers: one dispatcher, one queue and one semaphore per worker, and the
  reference counts of hooks, interleaved at each access to shared memory.
 */
module Dispatch {
  import opened Basics
  import opened Spsc

  /** The address of a hook; a connection's hook has its descriptor, its reference count, and is open until closed. */
  type Hook = int
  datatype HookState = HookState(fd: nat, refcnt: int, open: bool)
  type Hooks = map<Hook, HookState>

  /** Where a worker stands in its loop. Empty is the branch that reports an empty queue. */
  datatype Worker =
    | Wait
    | ReadLast
    | Test(last: Ptr)
    | Step
    | Advance(n: Ptr)
    | Value
    | Empty
    | Check(s: Hook)
    | Busy(s: Hook)
    | Drop(s: Hook)
    | Free(s: Hook)

  /** Where the dispatcher stands; x is the worker that an event goes to. */
  datatype Dispatcher =
    | Poll
    | Ready(h: Hook, close: bool)
    | DropOpen(h: Hook)
    | FreeOpen(h: Hook)
    | Ref(h: Hook)
    | NewNode(h: Hook, x: nat)
    | Link(h: Hook, x: nat, np: Ptr)
    | SetLast(x: nat, np: Ptr)
    | Trim(x: nat)
    | Take(x: nat)
    | FreeNode(x: nat, tmp: Ptr)
    | Post(x: nat)

  /** A worker with its queue and semaphore, and as history the hooks sent to it and those it began to process. */
  datatype Lane = Lane(q: Queue, sem: nat, pc: Worker, sent: seq<Hook>, handled: seq<Hook>)

  datatype State = State(lanes: seq<Lane>, disp: Dispatcher, hooks: Hooks)

  datatype Action =
    | Accept(h: Hook, fd: nat)
    | Event(h: Hook, close: bool)
    | Dispatch(np: Ptr)
    | Work(x: nat)

  function Start(n: nat, dummy: Ptr): State {
    State(seq(n, _ => NewLane(dummy)), Poll, map[])
  }

  function NewLane(dummy: Ptr): Lane { Lane(NewQueue(dummy), 0, Wait, [], []) }

  /**
    The descriptor of an open hook may yield an event; that of a closed one yields none. malloc gives an address not in
    use.
   */
  predicate Enabled(s: State, a: Action) {
    match a
    case Accept(h, fd) => s.disp == Poll && h != NULL && h !in s.hooks
    case Event(h, _) => s.disp == Poll && h in s.hooks && s.hooks[h].open
    case Dispatch(np) =>
      && s.disp != Poll
      && (s.disp.NewNode? ==> s.disp.x < |s.lanes| && np != NULL && np !in s.lanes[s.disp.x].q.heap)
    case Work(x) => x < |s.lanes| && (s.lanes[x].pc == Wait ==> s.lanes[x].sem > 0)
  }

  /** The step of a worker touches only nodes and hooks that are allocated. */
  predicate WorkerSafe(l: Lane, hooks: Hooks) {
    match l.pc
    case Test(last) => last in l.q.heap
    case Step => l.q.divider in l.q.heap
    case Value => l.q.divider in l.q.heap
    case Check(s) => s in hooks
    case Busy(s) => s in hooks
    case Drop(s) => s in hooks
    case Free(s) => s in hooks
    case _ => true
  }

  function WorkerStep(l: Lane, hooks: Hooks): (Lane, Hooks)
    requires WorkerSafe(l, hooks)
  {
    match l.pc
    case Wait => (if l.sem > 0 then l.(sem := l.sem - 1, pc := ReadLast) else l, hooks)
    case ReadLast => (l.(pc := Test(l.q.last)), hooks)
    case Test(last) => (l.(pc := if l.q.divider == l.q.heap[last].link then Empty else Step), hooks)
    case Step => (l.(pc := Advance(l.q.heap[l.q.divider].link)), hooks)
    case Advance(n) => (l.(q := l.q.(divider := n), pc := Value), hooks)
    case Value => (var v := l.q.heap[l.q.divider].val; l.(pc := if v == NULL then Empty else Check(v)), hooks)
    case Empty => (l.(pc := Wait), hooks)
    case Check(s) => (l.(pc := Busy(s), handled := l.handled + [s]), hooks)
    case Busy(s) => (l.(pc := Drop(s)), hooks)
    case Drop(s) =>
      var count := hooks[s].refcnt - 1;
      (l.(pc := if count == 0 then Free(s) else Wait), hooks[s := hooks[s].(refcnt := count)])
    case Free(s) => (l.(pc := Wait), hooks - {s})
  }

  predicate DispatcherSafe(s: State) {
    match s.disp
    case Poll => true
    case Ready(h, _) => h in s.hooks
    case DropOpen(h) => h in s.hooks
    case FreeOpen(h) => h in s.hooks
    case Ref(h) => h in s.hooks && |s.lanes| > 0
    case NewNode(h, x) => x < |s.lanes|
    case Link(h, x, np) => x < |s.lanes| && s.lanes[x].q.last in s.lanes[x].q.heap
    case SetLast(x, np) => x < |s.lanes|
    case Trim(x) => x < |s.lanes|
    case Take(x) => x < |s.lanes| && s.lanes[x].q.first in s.lanes[x].q.heap
    case FreeNode(x, tmp) => x < |s.lanes| && tmp in s.lanes[x].q.heap
    case Post(x) => x < |s.lanes|
  }

  /** What the dispatcher does to the queue and semaphore of the worker it deals with. */
  function OnLane(l: Lane, d: Dispatcher, np: Ptr): Lane
    requires d.Link? ==> l.q.last in l.q.heap
    requires d.Take? ==> l.q.first in l.q.heap
  {
    match d
    case NewNode(h, _) => l.(q := Alloc(l.q, np, h))
    case Link(h, _, n) => l.(q := SetLink(l.q, l.q.last, n), sent := l.sent + [h])
    case SetLast(_, n) => l.(q := l.q.(last := n))
    case Take(_) => l.(q := l.q.(first := l.q.heap[l.q.first].link))
    case FreeNode(_, tmp) => l.(q := Release(l.q, tmp))
    case Post(_) => l.(sem := l.sem + 1)
    case _ => l
  }

  function NextPoint(s: State, np: Ptr): Dispatcher
    requires DispatcherSafe(s)
  {
    match s.disp
    case Poll => Poll
    case Ready(h, close) => if close then DropOpen(h) else Ref(h)
    case DropOpen(h) => if s.hooks[h].refcnt - 1 == 0 then FreeOpen(h) else Poll
    case FreeOpen(h) => Poll
    case Ref(h) => NewNode(h, s.hooks[h].fd % |s.lanes|)
    case NewNode(h, x) => Link(h, x, np)
    case Link(h, x, n) => SetLast(x, n)
    case SetLast(x, n) => Trim(x)
    case Trim(x) => if s.lanes[x].q.first == s.lanes[x].q.divider then Post(x) else Take(x)
    case Take(x) => FreeNode(x, s.lanes[x].q.first)
    case FreeNode(x, _) => Trim(x)
    case Post(x) => Poll
  }

  function OnHooks(hooks: Hooks, d: Dispatcher): Hooks {
    match d
    case Ready(h, close) => if close && h in hooks then hooks[h := hooks[h].(open := false)] else hooks
    case DropOpen(h) => if h in hooks then hooks[h := hooks[h].(refcnt := hooks[h].refcnt - 1)] else hooks
    case FreeOpen(h) => hooks - {h}
    case Ref(h) => if h in hooks then hooks[h := hooks[h].(refcnt := hooks[h].refcnt + 1)] else hooks
    case _ => hooks
  }

  predicate HasLane(d: Dispatcher) {
    d.NewNode? || d.Link? || d.SetLast? || d.Trim? || d.Take? || d.FreeNode? || d.Post?
  }

  predicate Safe(s: State, a: Action) {
    match a
    case Accept(_, _) => true
    case Event(_, _) => true
    case Dispatch(_) => DispatcherSafe(s)
    case Work(x) => x < |s.lanes| && WorkerSafe(s.lanes[x], s.hooks)
  }

  function Do(s: State, a: Action): State
    requires Enabled(s, a) && Safe(s, a)
  {
    match a
    case Accept(h, fd) => s.(hooks := s.hooks[h := HookState(fd, 1, true)])
    case Event(h, close) => s.(disp := Ready(h, close))
    case Dispatch(np) =>
      State(if HasLane(s.disp) then s.lanes[s.disp.x := OnLane(s.lanes[s.disp.x], s.disp, np)] else s.lanes,
            NextPoint(s, np), OnHooks(s.hooks, s.disp))
    case Work(x) =>
      var (l, hooks) := WorkerStep(s.lanes[x], s.hooks);
      s.(lanes := s.lanes[x := l], hooks := hooks)
  }

  ghost predicate IsRun(run: seq<State>, actions: seq<Action>, n: nat, dummy: Ptr) {
    && n > 0 && |run| == |actions| + 1 && dummy != NULL && run[0] == Start(n, dummy)
    && forall i :: 0 <= i < |actions| ==>
         Enabled(run[i], actions[i]) && Safe(run[i], actions[i]) && run[i + 1] == Do(run[i], actions[i])
  }

  // ---- one worker's queue ------------------------------------------------------------------------------

  predicate AtLane(d: Dispatcher, x: nat) { HasLane(d) && d.x == x }

  function InHand(d: Dispatcher, x: nat): set<Ptr> {
    if !AtLane(d, x) then {}
    else match d
         case Link(_, _, np) => {np}
         case FreeNode(_, tmp) => {tmp}
         case _ => {}
  }

  // A node is linked for which the semaphore is not posted yet.
  function Owed(d: Dispatcher, x: nat): nat {
    if AtLane(d, x) && !d.NewNode? && !d.Link? then 1 else 0
  }

  // The worker has passed the semaphore and not advanced the divider yet.
  function Granted(pc: Worker): nat {
    if pc == ReadLast || pc.Test? || pc == Step || pc.Advance? then 1 else 0
  }

  // The worker has advanced the divider to a hook that it does not process yet.
  function Fetched(pc: Worker): nat {
    if pc == Value || pc.Check? then 1 else 0
  }

  function LastIndex(d: Dispatcher, x: nat, l: seq<Ptr>): int {
    if AtLane(d, x) && d.SetLast? then |l| - 2 else |l| - 1
  }

  ghost predicate ValuesAre(q: Queue, l: seq<Ptr>, i: int, hs: seq<Hook>) {
    && 0 <= i < |l| && |hs| == |l| - 1 - i
    && forall k :: i < k < |l| ==> l[k] in q.heap && q.heap[l[k]].val == hs[k - i - 1]
  }

  ghost predicate WorkerOk(lane: Lane, l: seq<Ptr>, i: int)
    requires 0 <= i < |l|
  {
    match lane.pc
    case Test(last) => last in l[i..]
    case Advance(n) => i + 1 < |l| && n == l[i + 1]
    case Value => |lane.handled| < |lane.sent| && l[i] in lane.q.heap
        && lane.q.heap[l[i]].val == lane.sent[|lane.handled|]
    case Check(s) => |lane.handled| < |lane.sent| && s == lane.sent[|lane.handled|]
    case Empty => false
    case _ => true
  }

  ghost predicate DispatcherOk(lane: Lane, d: Dispatcher, x: nat, l: seq<Ptr>, i: int) {
    AtLane(d, x) ==>
      match d
      case NewNode(h, _) => h != NULL
      case Link(h, _, np) => h != NULL && np in lane.q.heap && lane.q.heap[np] == Cell(h, NULL)
      case SetLast(_, np) => |l| > 1 && np == l[|l| - 1]
      case Take(_) => i >= 1
      case _ => true
  }

  ghost predicate LaneInv(lane: Lane, d: Dispatcher, x: nat, l: seq<Ptr>, i: int) {
    && Listed(lane.q, l, InHand(d, x))
    && 0 <= i <= LastIndex(d, x, l) && lane.q.divider == l[i] && lane.q.last == l[LastIndex(d, x, l)]
    && lane.handled <= lane.sent && |lane.handled| + Fetched(lane.pc) <= |lane.sent|
    && ValuesAre(lane.q, l, i, lane.sent[|lane.handled| + Fetched(lane.pc)..])
    && lane.sem + Granted(lane.pc) + Owed(d, x) == |l| - 1 - i
    && (forall h :: h in lane.sent ==> h != NULL)
    && WorkerOk(lane, l, i) && DispatcherOk(lane, d, x, l, i)
  }

  ghost predicate LaneOk(lane: Lane, d: Dispatcher, x: nat) {
    exists l, i :: LaneInv(lane, d, x, l, i)
  }

  lemma InList(q: Queue, l: seq<Ptr>, extra: set<Ptr>, i: int, p: Ptr)
    requires Listed(q, l, extra) && 0 <= i < |l| && p in l[i..]
    ensures p in q.heap && q.heap[p].link != l[i]
  {
    var k :| 0 <= k < |l| - i && l[i..][k] == p;
    assert NodeAt(q, l, i + k) && NodeAt(q, l, i);
    assert i + k + 1 < |l| ==> Differ(l, i, i + k + 1);
  }

  lemma WorkerAdvances(lane: Lane, hooks: Hooks, d: Dispatcher, x: nat, l: seq<Ptr>, i: int)
    requires LaneInv(lane, d, x, l, i) && lane.pc.Advance? && WorkerSafe(lane, hooks)
    ensures LaneInv(WorkerStep(lane, hooks).0, d, x, l, i + 1)
  {
    var lane' := WorkerStep(lane, hooks).0;
    assert NodeAt(lane.q, l, i + 1);
    PointersKeep(lane.q, lane'.q, l, InHand(d, x));
    NextValue(lane.q, lane'.q, l, i, lane.sent, |lane.handled|);
  }

  lemma NextValue(q: Queue, q': Queue, l: seq<Ptr>, i: int, hs: seq<Hook>, k: nat)
    requires k < |hs| && ValuesAre(q, l, i, hs[k..]) && i + 1 < |l| && q'.heap == q.heap
    ensures ValuesAre(q', l, i + 1, hs[k + 1..]) && l[i + 1] in q'.heap && q'.heap[l[i + 1]].val == hs[k]
  {
    assert hs[k..][1..] == hs[k + 1..] && hs[k..][0] == hs[k];
  }

  lemma WorkerChecks(lane: Lane, hooks: Hooks, d: Dispatcher, x: nat, l: seq<Ptr>, i: int)
    requires LaneInv(lane, d, x, l, i) && lane.pc.Check? && WorkerSafe(lane, hooks)
    ensures LaneInv(WorkerStep(lane, hooks).0, d, x, l, i)
  {
    var lane' := WorkerStep(lane, hooks).0;
    assert lane.sent[|lane.handled| + 1..] == lane'.sent[|lane'.handled| + Fetched(lane'.pc)..];
  }

  /**
   * The emptiness test of a worker compares the divider with what comes after the last node: it never says
   * that the queue is empty. What makes the next node exist is the semaphore.
   */
  lemma TestNeverSaysEmpty(lane: Lane, hooks: Hooks, d: Dispatcher, x: nat, l: seq<Ptr>, i: int)
    requires LaneInv(lane, d, x, l, i) && lane.pc.Test? && WorkerSafe(lane, hooks)
    ensures WorkerStep(lane, hooks).0 == lane.(pc := Step)
  {
    InList(lane.q, l, InHand(d, x), i, lane.pc.last);
  }

  lemma WorkerMoves(lane: Lane, pc: Worker, d: Dispatcher, x: nat, l: seq<Ptr>, i: int)
    requires LaneInv(lane, d, x, l, i) && Granted(pc) == Granted(lane.pc) && Fetched(pc) == Fetched(lane.pc)
    requires WorkerOk(lane.(pc := pc), l, i)
    ensures LaneInv(lane.(pc := pc), d, x, l, i)
  {
  }

  lemma WorkerWakes(lane: Lane, hooks: Hooks, d: Dispatcher, x: nat, l: seq<Ptr>, i: int)
    requires LaneInv(lane, d, x, l, i) && lane.pc == Wait && lane.sem > 0
    ensures LaneInv(WorkerStep(lane, hooks).0, d, x, l, i)
  {
  }

  lemma WorkerKeepsLane(lane: Lane, hooks: Hooks, d: Dispatcher, x: nat, l: seq<Ptr>, i: int)
    requires LaneInv(lane, d, x, l, i) && (lane.pc == Wait ==> lane.sem > 0) && WorkerSafe(lane, hooks)
    ensures LaneOk(WorkerStep(lane, hooks).0, d, x)
  {
    var lane' := WorkerStep(lane, hooks).0;
    match lane.pc
    case Test(last) =>
      TestNeverSaysEmpty(lane, hooks, d, x, l, i);
      WorkerMoves(lane, Step, d, x, l, i);
    case Step =>
      assert NodeAt(lane.q, l, i);
      WorkerMoves(lane, lane'.pc, d, x, l, i);
    case Advance(n) =>
      WorkerAdvances(lane, hooks, d, x, l, i);
    case ReadLast =>
      assert lane.q.last == l[i..][LastIndex(d, x, l) - i];
      WorkerMoves(lane, lane'.pc, d, x, l, i);
    case Check(s) =>
      WorkerChecks(lane, hooks, d, x, l, i);
    case Value =>
      assert lane.sent[|lane.handled|] in lane.sent;
      WorkerMoves(lane, lane'.pc, d, x, l, i);
    case Wait =>
      WorkerWakes(lane, hooks, d, x, l, i);
    case _ =>
      WorkerMoves(lane, lane'.pc, d, x, l, i);
  }

  // No worker step but those on its hook touches anything that may be freed.
  lemma WorkerMemory(lane: Lane, d: Dispatcher, x: nat, l: seq<Ptr>, i: int)
    requires LaneInv(lane, d, x, l, i)
    ensures lane.q.divider in lane.q.heap && lane.q.first in lane.q.heap && lane.q.last in lane.q.heap
    ensures lane.pc.Test? ==> lane.pc.last in lane.q.heap
  {
    assert NodeAt(lane.q, l, i) && NodeAt(lane.q, l, 0) && NodeAt(lane.q, l, LastIndex(d, x, l));
    if lane.pc.Test? {
      InList(lane.q, l, InHand(d, x), i, lane.pc.last);
    }
  }

  // ---- the dispatcher on a queue -------------------------------------------------------------------------

  lemma NewNodeKeeps(lane: Lane, d: Dispatcher, x: nat, np: Ptr, l: seq<Ptr>, i: int)
    requires LaneInv(lane, d, x, l, i) && d.NewNode? && d.x == x && np != NULL && np !in lane.q.heap
    ensures LaneInv(OnLane(lane, d, np), Link(d.h, x, np), x, l, i)
  {
    AllocKeeps(lane.q, l, {}, np, d.h);
    assert InHand(d, x) == {} && {} + {np} == {np};
  }

  lemma MoreValues(q: Queue, q': Queue, l: seq<Ptr>, i: int, hs: seq<Hook>, np: Ptr, h: Hook)
    requires ValuesAre(q, l, i, hs) && np in q'.heap && q'.heap[np].val == h
    requires forall k :: 0 <= k < |l| ==> l[k] in q.heap && l[k] in q'.heap && q'.heap[l[k]].val == q.heap[l[k]].val
    ensures ValuesAre(q', l + [np], i, hs + [h])
  {
  }

  lemma LinkNodeKeeps(lane: Lane, d: Dispatcher, x: nat, np: Ptr, l: seq<Ptr>, i: int)
    requires LaneInv(lane, d, x, l, i) && d.Link? && d.x == x && lane.q.last in lane.q.heap
    ensures LaneInv(OnLane(lane, d, np), SetLast(x, d.np), x, l + [d.np], i)
  {
    var lane' := OnLane(lane, d, np);
    var d' := SetLast(x, d.np);
    var t := |lane.handled| + Fetched(lane.pc);
    LinkKeeps(lane.q, l, {d.np}, d.np);
    assert InHand(d, x) == {d.np} && InHand(d', x) == {d.np} - {d.np};
    assert LastIndex(d', x, l + [d.np]) == LastIndex(d, x, l) == |l| - 1;
    MoreValues(lane.q, lane'.q, l, i, lane.sent[t..], d.np, d.h);
    assert lane'.sent[t..] == lane.sent[t..] + [d.h];
    assert (l + [d.np])[i..] == l[i..] + [d.np];
  }

  lemma SetLastKeeps(lane: Lane, d: Dispatcher, x: nat, np: Ptr, l: seq<Ptr>, i: int)
    requires LaneInv(lane, d, x, l, i) && d.SetLast? && d.x == x
    ensures LaneInv(OnLane(lane, d, np), Trim(x), x, l, i)
  {
    PointersKeep(lane.q, OnLane(lane, d, np).q, l, {});
  }

  lemma TakeKeeps(lane: Lane, d: Dispatcher, x: nat, np: Ptr, l: seq<Ptr>, i: int)
    requires LaneInv(lane, d, x, l, i) && d.Take? && d.x == x && lane.q.first in lane.q.heap
    ensures LaneInv(OnLane(lane, d, np), FreeNode(x, lane.q.first), x, l[1..], i - 1)
  {
    FirstKeeps(lane.q, l, {});
    var d' := FreeNode(x, lane.q.first);
    assert InHand(d', x) == {} + {lane.q.first} && InHand(d, x) == {};
    assert LastIndex(d', x, l[1..]) == LastIndex(d, x, l) - 1;
    assert l[1..][LastIndex(d, x, l) - 1] == l[LastIndex(d, x, l)];
    TakeRest(lane, d, OnLane(lane, d, np), x, l, i);
  }

  // What the removal of the first node leaves as it was.
  lemma TakeRest(lane: Lane, d: Dispatcher, lane': Lane, x: nat, l: seq<Ptr>, i: int)
    requires 0 < i < |l| && lane.q.divider == l[i] && WorkerOk(lane, l, i)
    requires |lane.handled| + Fetched(lane.pc) <= |lane.sent|
    requires ValuesAre(lane.q, l, i, lane.sent[|lane.handled| + Fetched(lane.pc)..])
    requires lane' == lane.(q := lane'.q) && lane'.q.heap == lane.q.heap && lane'.q.divider == lane.q.divider
    ensures lane'.q.divider == l[1..][i - 1] && WorkerOk(lane', l[1..], i - 1)
    ensures ValuesAre(lane'.q, l[1..], i - 1, lane'.sent[|lane.handled| + Fetched(lane.pc)..])
  {
    assert l[1..][i - 1..] == l[i..];
  }

  lemma FreeNodeKeeps(lane: Lane, d: Dispatcher, x: nat, np: Ptr, l: seq<Ptr>, i: int)
    requires LaneInv(lane, d, x, l, i) && d.FreeNode? && d.x == x
    ensures LaneInv(OnLane(lane, d, np), Trim(x), x, l, i)
  {
    ReleaseKeeps(lane.q, l, {d.tmp}, d.tmp);
    assert {d.tmp} - {d.tmp} == {};
  }

  lemma TrimTestKeeps(lane: Lane, d: Dispatcher, x: nat, l: seq<Ptr>, i: int)
    requires LaneInv(lane, d, x, l, i) && d.Trim? && d.x == x
    ensures LaneInv(lane, if lane.q.first == lane.q.divider then Post(x) else Take(x), x, l, i)
  {
  }

  lemma PostKeeps(lane: Lane, d: Dispatcher, x: nat, np: Ptr, l: seq<Ptr>, i: int)
    requires LaneInv(lane, d, x, l, i) && d.Post? && d.x == x
    ensures LaneInv(OnLane(lane, d, np), Poll, x, l, i)
  {
  }

  lemma OnLaneKeeps(lane: Lane, d: Dispatcher, d': Dispatcher, x: nat, np: Ptr, l: seq<Ptr>, i: int)
    requires LaneInv(lane, d, x, l, i) && HasLane(d) && d.x == x
    requires d.NewNode? ==> np != NULL && np !in lane.q.heap && d' == Link(d.h, x, np)
    requires d.Link? ==> lane.q.last in lane.q.heap && d' == SetLast(x, d.np)
    requires d.SetLast? || d.FreeNode? ==> d' == Trim(x)
    requires d.Trim? ==> d' == if lane.q.first == lane.q.divider then Post(x) else Take(x)
    requires d.Take? ==> lane.q.first in lane.q.heap && d' == FreeNode(x, lane.q.first)
    requires d.Post? ==> d' == Poll
    ensures LaneOk(OnLane(lane, d, np), d', x)
  {
    var lane' := OnLane(lane, d, np);
    match d
    case NewNode(_, _) =>
      NewNodeKeeps(lane, d, x, np, l, i);
    case Link(_, _, n) =>
      LinkNodeKeeps(lane, d, x, np, l, i);
    case SetLast(_, _) =>
      SetLastKeeps(lane, d, x, np, l, i);
    case Take(_) =>
      TakeKeeps(lane, d, x, np, l, i);
    case FreeNode(_, _) =>
      FreeNodeKeeps(lane, d, x, np, l, i);
    case Trim(_) =>
      TrimTestKeeps(lane, d, x, l, i);
    case Post(_) =>
      PostKeeps(lane, d, x, np, l, i);
  }

  // A lane that the dispatcher does not deal with is as if it were polling.
  lemma AwayKeeps(lane: Lane, d: Dispatcher, d': Dispatcher, x: nat)
    requires LaneOk(lane, d, x) && !AtLane(d, x) && (AtLane(d', x) ==> d'.NewNode? && d'.h != NULL)
    ensures LaneOk(lane, d', x)
  {
    var l, i :| LaneInv(lane, d, x, l, i);
    assert LaneInv(lane, d', x, l, i);
  }

  // ---- reference counts ----------------------------------------------------------------------------------

  function Occurs(hs: seq<Hook>, h: Hook): nat {
    if |hs| == 0 then 0 else (if hs[0] == h then 1 else 0) + Occurs(hs[1..], h)
  }

  lemma {:induction false} OccursLast(hs: seq<Hook>, g: Hook, h: Hook)
    ensures Occurs(hs + [g], h) == Occurs(hs, h) + if g == h then 1 else 0
  {
    if |hs| > 0 {
      assert (hs + [g])[1..] == hs[1..] + [g];
      OccursLast(hs[1..], g, h);
    }
  }

  /** Hooks sent to a worker that it has not begun to process. */
  function Unhandled(lane: Lane): seq<Hook> {
    if |lane.handled| <= |lane.sent| then lane.sent[|lane.handled|..] else []
  }

  /** The references to h that a worker's queue and the worker itself hold. */
  function LaneRefs(lane: Lane, h: Hook): nat {
    Occurs(Unhandled(lane), h) + if (lane.pc.Busy? || lane.pc.Drop?) && lane.pc.s == h then 1 else 0
  }

  /** A worker that brought the count of h to zero and is about to free it. */
  function LaneFrees(lane: Lane, h: Hook): nat {
    if lane.pc.Free? && lane.pc.s == h then 1 else 0
  }

  function DispRefs(d: Dispatcher, h: Hook): nat {
    if (d.NewNode? || d.Link? || d.DropOpen?) && d.h == h then 1 else 0
  }

  function DispFrees(d: Dispatcher, h: Hook): nat {
    if d.FreeOpen? && d.h == h then 1 else 0
  }

  function TotalRefs(lanes: seq<Lane>, h: Hook): nat {
    if |lanes| == 0 then 0 else TotalRefs(lanes[..|lanes| - 1], h) + LaneRefs(lanes[|lanes| - 1], h)
  }

  function TotalFrees(lanes: seq<Lane>, h: Hook): nat {
    if |lanes| == 0 then 0 else TotalFrees(lanes[..|lanes| - 1], h) + LaneFrees(lanes[|lanes| - 1], h)
  }

  lemma {:induction false} RefsAt(lanes: seq<Lane>, x: nat, lane: Lane, h: Hook)
    requires x < |lanes|
    ensures TotalRefs(lanes[x := lane], h) + LaneRefs(lanes[x], h) == TotalRefs(lanes, h) + LaneRefs(lane, h)
    ensures LaneRefs(lanes[x], h) <= TotalRefs(lanes, h)
  {
    var n := |lanes| - 1;
    if x < n {
      assert lanes[x := lane][..n] == lanes[..n][x := lane] && lanes[x := lane][n] == lanes[n];
      RefsAt(lanes[..n], x, lane, h);
    } else {
      assert lanes[x := lane][..n] == lanes[..n];
    }
  }

  lemma {:induction false} FreesAt(lanes: seq<Lane>, x: nat, lane: Lane, h: Hook)
    requires x < |lanes|
    ensures TotalFrees(lanes[x := lane], h) + LaneFrees(lanes[x], h) == TotalFrees(lanes, h) + LaneFrees(lane, h)
    ensures LaneFrees(lanes[x], h) <= TotalFrees(lanes, h)
  {
    var n := |lanes| - 1;
    if x < n {
      assert lanes[x := lane][..n] == lanes[..n][x := lane] && lanes[x := lane][n] == lanes[n];
      FreesAt(lanes[..n], x, lane, h);
    } else {
      assert lanes[x := lane][..n] == lanes[..n];
    }
  }

  lemma TotalAt(lanes: seq<Lane>, x: nat, lane: Lane, h: Hook)
    requires x < |lanes|
    ensures TotalRefs(lanes[x := lane], h) + LaneRefs(lanes[x], h) == TotalRefs(lanes, h) + LaneRefs(lane, h)
    ensures TotalFrees(lanes[x := lane], h) + LaneFrees(lanes[x], h) == TotalFrees(lanes, h) + LaneFrees(lane, h)
    ensures LaneRefs(lanes[x], h) <= TotalRefs(lanes, h) && LaneFrees(lanes[x], h) <= TotalFrees(lanes, h)
  {
    RefsAt(lanes, x, lane, h);
    FreesAt(lanes, x, lane, h);
  }

  function Refs(s: State, h: Hook): nat { TotalRefs(s.lanes, h) + DispRefs(s.disp, h) }

  function Frees(s: State, h: Hook): nat { TotalFrees(s.lanes, h) + DispFrees(s.disp, h) }

  /**
   * The count of a hook is the number of references to it, with one more while it is open, and a count of
   * zero is in the hands of exactly one thread, which is about to free the hook.
   */
  ghost predicate Balanced(s: State, h: Hook) {
    if h in s.hooks then
      && s.hooks[h].refcnt == Refs(s, h) + (if s.hooks[h].open then 1 else 0)
      && Frees(s, h) == if s.hooks[h].refcnt == 0 then 1 else 0
    else Refs(s, h) == 0 && Frees(s, h) == 0
  }

  /** A hook in a worker's hands or queue has a descriptor that belongs to that worker. */
  ghost predicate Routed(s: State, x: nat, h: Hook)
    requires x < |s.lanes|
  {
    LaneRefs(s.lanes[x], h) > 0 && h in s.hooks ==> s.hooks[h].fd % |s.lanes| == x
  }

  ghost predicate DispOk(s: State) {
    && |s.lanes| > 0
    && (HasLane(s.disp) ==> s.disp.x < |s.lanes|)
    && (s.disp.Ready? || s.disp.Ref? ==> s.disp.h in s.hooks && s.hooks[s.disp.h].open)
    && (s.disp.NewNode? || s.disp.Link? ==> s.disp.h in s.hooks && s.hooks[s.disp.h].fd % |s.lanes| == s.disp.x)
    && NULL !in s.hooks
  }

  ghost predicate Inv(s: State) {
    && DispOk(s)
    && (forall x {:trigger LaneOk(s.lanes[x], s.disp, x)} :: 0 <= x < |s.lanes| ==> LaneOk(s.lanes[x], s.disp, x))
    && (forall h {:trigger Balanced(s, h)} :: Balanced(s, h))
    && (forall x, h {:trigger Routed(s, x, h)} :: 0 <= x < |s.lanes| ==> Routed(s, x, h))
  }

  // What the hook side needs to know of a lane.
  lemma LaneFacts(s: State, x: nat)
    requires Inv(s) && x < |s.lanes|
    ensures var lane := s.lanes[x];
            && |lane.handled| <= |lane.sent|
            && (lane.pc.Check? ==> |lane.handled| < |lane.sent| && lane.pc.s == lane.sent[|lane.handled|])
            && lane.pc != Empty
            && lane.q.first in lane.q.heap && lane.q.last in lane.q.heap && lane.q.divider in lane.q.heap
            && (lane.pc.Test? ==> lane.pc.last in lane.q.heap)
            && (AtLane(s.disp, x) && s.disp.FreeNode? ==> s.disp.tmp in lane.q.heap)
  {
    assert LaneOk(s.lanes[x], s.disp, x);
    var l, i :| LaneInv(s.lanes[x], s.disp, x, l, i);
    WorkerMemory(s.lanes[x], s.disp, x, l, i);
  }

  lemma HeldIsAlive(s: State, x: nat, h: Hook)
    requires Inv(s) && x < |s.lanes| && (LaneRefs(s.lanes[x], h) > 0 || LaneFrees(s.lanes[x], h) > 0)
    ensures h in s.hooks
  {
    TotalAt(s.lanes, x, s.lanes[x], h);
    assert Balanced(s, h);
  }

  // ---- every step --------------------------------------------------------------------------------------------

  /** No step that is possible touches a freed node or a freed hook. */
  lemma ActionIsSafe(s: State, a: Action)
    requires Inv(s) && Enabled(s, a)
    ensures Safe(s, a)
  {
    match a
    case Work(x) =>
      var pc := s.lanes[x].pc;
      LaneFacts(s, x);
      if pc.Check? || pc.Busy? || pc.Drop? || pc.Free? {
        HeldIsAlive(s, x, pc.s);
      }
    case Dispatch(np) =>
      if HasLane(s.disp) {
        LaneFacts(s, s.disp.x);
      } else if s.disp.DropOpen? || s.disp.FreeOpen? {
        assert Balanced(s, s.disp.h);
      }
    case _ =>
  }

  lemma WorkerRefs(lane: Lane, hooks: Hooks, h: Hook)
    requires WorkerSafe(lane, hooks) && |lane.handled| <= |lane.sent|
    requires lane.pc.Check? ==> |lane.handled| < |lane.sent| && lane.pc.s == lane.sent[|lane.handled|]
    ensures LaneRefs(WorkerStep(lane, hooks).0, h) == LaneRefs(lane, h) - if lane.pc == Drop(h) then 1 else 0
  {
    if lane.pc.Check? {
      assert lane.sent[|lane.handled|..][1..] == lane.sent[|lane.handled| + 1..];
    }
  }

  lemma WorkBalances(s: State, x: nat, h: Hook)
    requires Inv(s) && Enabled(s, Work(x)) && Safe(s, Work(x))
    ensures Balanced(Do(s, Work(x)), h)
  {
    var lane := s.lanes[x];
    LaneFacts(s, x);
    WorkerRefs(lane, s.hooks, h);
    TotalAt(s.lanes, x, WorkerStep(lane, s.hooks).0, h);
    assert Balanced(s, h);
  }

  lemma WorkRoutes(s: State, x: nat, y: nat, h: Hook)
    requires Inv(s) && Enabled(s, Work(x)) && Safe(s, Work(x)) && y < |s.lanes|
    ensures Routed(Do(s, Work(x)), y, h)
  {
    LaneFacts(s, x);
    WorkerRefs(s.lanes[x], s.hooks, h);
    assert Routed(s, y, h);
  }

  lemma WorkKeepsDisp(s: State, x: nat)
    requires Inv(s) && Enabled(s, Work(x)) && Safe(s, Work(x))
    ensures DispOk(Do(s, Work(x)))
  {
    if s.lanes[x].pc.Free? {
      TotalAt(s.lanes, x, s.lanes[x], s.lanes[x].pc.s);
      assert Balanced(s, s.lanes[x].pc.s);
    }
  }

  lemma WorkKeepsLanes(s: State, x: nat, y: nat)
    requires Inv(s) && Enabled(s, Work(x)) && Safe(s, Work(x)) && y < |s.lanes|
    ensures LaneOk(Do(s, Work(x)).lanes[y], s.disp, y)
  {
    assert LaneOk(s.lanes[y], s.disp, y);
    if y == x {
      var l, i :| LaneInv(s.lanes[x], s.disp, x, l, i);
      WorkerKeepsLane(s.lanes[x], s.hooks, s.disp, x, l, i);
    }
  }

  lemma WorkKeeps(s: State, x: nat)
    requires Inv(s) && Enabled(s, Work(x)) && Safe(s, Work(x))
    ensures Inv(Do(s, Work(x)))
  {
    var s' := Do(s, Work(x));
    assert |s'.lanes| == |s.lanes| && s'.disp == s.disp;
    forall y | 0 <= y < |s'.lanes| ensures LaneOk(s'.lanes[y], s'.disp, y) { WorkKeepsLanes(s, x, y); }
    forall h ensures Balanced(s', h) { WorkBalances(s, x, h); }
    forall y, h | 0 <= y < |s'.lanes| ensures Routed(s', y, h) { WorkRoutes(s, x, y, h); }
    WorkKeepsDisp(s, x);
  }

  // ---- the dispatcher's steps ------------------------------------------------------------------------------------

  lemma DispatchKeepsLanes(s: State, np: Ptr, y: nat)
    requires Inv(s) && Enabled(s, Dispatch(np)) && Safe(s, Dispatch(np)) && y < |s.lanes|
    ensures LaneOk(Do(s, Dispatch(np)).lanes[y], Do(s, Dispatch(np)).disp, y)
  {
    var d' := NextPoint(s, np);
    assert LaneOk(s.lanes[y], s.disp, y);
    if AtLane(s.disp, y) {
      var l, i :| LaneInv(s.lanes[y], s.disp, y, l, i);
      OnLaneKeeps(s.lanes[y], s.disp, d', y, np, l, i);
    } else {
      AwayKeeps(s.lanes[y], s.disp, d', y);
    }
  }

  lemma OnLaneRefs(lane: Lane, d: Dispatcher, np: Ptr, h: Hook)
    requires |lane.handled| <= |lane.sent|
    requires d.Link? ==> lane.q.last in lane.q.heap
    requires d.Take? ==> lane.q.first in lane.q.heap
    ensures LaneRefs(OnLane(lane, d, np), h) == LaneRefs(lane, h) + if d.Link? && d.h == h then 1 else 0
    ensures LaneFrees(OnLane(lane, d, np), h) == LaneFrees(lane, h)
  {
    if d.Link? {
      assert (lane.sent + [d.h])[|lane.handled|..] == lane.sent[|lane.handled|..] + [d.h];
      OccursLast(Unhandled(lane), d.h, h);
    }
  }

  lemma BalanceStays(s: State, s': State, x: nat, lane: Lane, h: Hook)
    requires x < |s.lanes| && s'.lanes == s.lanes[x := lane] && s'.hooks == s.hooks && Balanced(s, h)
    requires LaneRefs(lane, h) + DispRefs(s'.disp, h) == LaneRefs(s.lanes[x], h) + DispRefs(s.disp, h)
    requires LaneFrees(lane, h) + DispFrees(s'.disp, h) == LaneFrees(s.lanes[x], h) + DispFrees(s.disp, h)
    ensures Balanced(s', h)
  {
    TotalAt(s.lanes, x, lane, h);
  }

  // On a lane the dispatcher moves its own reference into the queue and changes no count.
  lemma LaneDispatchBalances(s: State, np: Ptr, h: Hook)
    requires Enabled(s, Dispatch(np)) && Safe(s, Dispatch(np)) && HasLane(s.disp) && s.disp.x < |s.lanes|
    requires |s.lanes[s.disp.x].handled| <= |s.lanes[s.disp.x].sent| && Balanced(s, h)
    ensures Balanced(Do(s, Dispatch(np)), h)
  {
    var x := s.disp.x;
    var lane' := OnLane(s.lanes[x], s.disp, np);
    OnLaneRefs(s.lanes[x], s.disp, np, h);
    BalanceStays(s, Do(s, Dispatch(np)), x, lane', h);
  }

  lemma DispatchBalances(s: State, np: Ptr, h: Hook)
    requires Inv(s) && Enabled(s, Dispatch(np)) && Safe(s, Dispatch(np))
    ensures Balanced(Do(s, Dispatch(np)), h)
  {
    assert Balanced(s, h);
    if HasLane(s.disp) {
      LaneFacts(s, s.disp.x);
      LaneDispatchBalances(s, np, h);
    } else {
      var s' := Do(s, Dispatch(np));
      assert s'.lanes == s.lanes;
    }
  }

  lemma DispatchRoutes(s: State, np: Ptr, y: nat, h: Hook)
    requires Inv(s) && Enabled(s, Dispatch(np)) && Safe(s, Dispatch(np)) && y < |s.lanes|
    ensures Routed(Do(s, Dispatch(np)), y, h)
  {
    assert Routed(s, y, h);
    if AtLane(s.disp, y) {
      LaneFacts(s, y);
      OnLaneRefs(s.lanes[y], s.disp, np, h);
    }
  }

  lemma DispatchKeepsDisp(s: State, np: Ptr)
    requires Inv(s) && Enabled(s, Dispatch(np)) && Safe(s, Dispatch(np))
    ensures DispOk(Do(s, Dispatch(np)))
  {
  }

  lemma DispatchKeeps(s: State, np: Ptr)
    requires Inv(s) && Enabled(s, Dispatch(np)) && Safe(s, Dispatch(np))
    ensures Inv(Do(s, Dispatch(np)))
  {
    var s' := Do(s, Dispatch(np));
    assert |s'.lanes| == |s.lanes|;
    forall y | 0 <= y < |s'.lanes| ensures LaneOk(s'.lanes[y], s'.disp, y) { DispatchKeepsLanes(s, np, y); }
    forall h ensures Balanced(s', h) { DispatchBalances(s, np, h); }
    forall y, h | 0 <= y < |s'.lanes| ensures Routed(s', y, h) { DispatchRoutes(s, np, y, h); }
    DispatchKeepsDisp(s, np);
  }

  lemma CallsKeep(s: State, a: Action)
    requires Inv(s) && Enabled(s, a) && (a.Accept? || a.Event?)
    ensures Inv(Do(s, a))
  {
    var s' := Do(s, a);
    forall h ensures Balanced(s', h) { assert Balanced(s, h); }
    forall y, h | 0 <= y < |s'.lanes| ensures Routed(s', y, h) {
      assert Routed(s, y, h) && Balanced(s, h);
      TotalAt(s.lanes, y, s.lanes[y], h);
    }
    forall y | 0 <= y < |s'.lanes| ensures LaneOk(s'.lanes[y], s'.disp, y) {
      assert LaneOk(s.lanes[y], s.disp, y);
      AwayKeeps(s.lanes[y], s.disp, s'.disp, y);
    }
  }

  lemma ActionKeeps(s: State, a: Action)
    requires Inv(s) && Enabled(s, a)
    ensures Safe(s, a) && Inv(Do(s, a)) && |Do(s, a).lanes| == |s.lanes|
  {
    ActionIsSafe(s, a);
    match a
    case Work(x) => WorkKeeps(s, x);
    case Dispatch(np) => DispatchKeeps(s, np);
    case _ => CallsKeep(s, a);
  }

  lemma {:induction false} NothingHeld(n: nat, dummy: Ptr, h: Hook)
    ensures TotalRefs(Start(n, dummy).lanes, h) == 0 && TotalFrees(Start(n, dummy).lanes, h) == 0
  {
    if n > 0 {
      assert Start(n, dummy).lanes[..n - 1] == Start(n - 1, dummy).lanes;
      NothingHeld(n - 1, dummy, h);
    }
  }

  // The lane of a worker whose queue has one node, the divider, and holds nothing.
  lemma IdleLaneIsOk(lane: Lane, x: nat, l: seq<Ptr>)
    requires Listed(lane.q, l, {}) && |l| == 1 && lane.q.divider == l[0] && lane.q.last == l[0]
    requires lane.sent == [] && lane.handled == [] && lane.sem == 0 && lane.pc == Wait
    ensures LaneOk(lane, Poll, x)
  {
    assert LaneInv(lane, Poll, x, l, 0);
  }

  lemma {:induction false} StartIsOk(n: nat, dummy: Ptr)
    requires n > 0 && dummy != NULL
    ensures Inv(Start(n, dummy))
  {
    var s := Start(n, dummy);
    NewIsListed(dummy);
    forall x | 0 <= x < n ensures LaneOk(s.lanes[x], Poll, x) { IdleLaneIsOk(s.lanes[x], x, [dummy]); }
    forall h ensures Balanced(s, h) { NothingHeld(n, dummy, h); }
  }

  lemma {:induction false} RunKeeps(run: seq<State>, actions: seq<Action>, n: nat, dummy: Ptr, i: nat)
    requires IsRun(run, actions, n, dummy) && i < |run|
    ensures Inv(run[i]) && |run[i].lanes| == n
  {
    if i == 0 {
      StartIsOk(n, dummy);
    } else {
      RunKeeps(run, actions, n, dummy, i - 1);
      assert run[i - 1 + 1] == Do(run[i - 1], actions[i - 1]);
      ActionKeeps(run[i - 1], actions[i - 1]);
    }
  }

  // ---- main results ------------------------------------------------------------------------------------------------

  /** In every interleaving no worker finds its queue empty, and no step touches freed memory. */
  lemma NoWorkerFindsAnEmptyQueue(run: seq<State>, actions: seq<Action>, n: nat, dummy: Ptr, i: nat)
    requires IsRun(run, actions, n, dummy) && i < |run|
    ensures |run[i].lanes| == n && forall x :: 0 <= x < n ==> run[i].lanes[x].pc != Empty
    ensures forall a :: Enabled(run[i], a) ==> Safe(run[i], a)
  {
    RunKeeps(run, actions, n, dummy, i);
    forall x | 0 <= x < n ensures run[i].lanes[x].pc != Empty { LaneFacts(run[i], x); }
    forall a | Enabled(run[i], a) ensures Safe(run[i], a) { ActionIsSafe(run[i], a); }
  }

  // ---- what arrives is what is processed ------------------------------------------------------------------

  /** The hooks of the first i events that are no closings and whose descriptor belongs to worker x, in order. */
  ghost function Arrived(run: seq<State>, actions: seq<Action>, i: nat, x: nat): seq<Hook>
    requires i <= |actions| < |run|
  {
    if i == 0 then []
    else
      var s, a := run[i - 1], actions[i - 1];
      Arrived(run, actions, i - 1, x)
      + if a.Event? && !a.close && a.h in s.hooks && |s.lanes| > 0 && s.hooks[a.h].fd % |s.lanes| == x then [a.h]
        else []
  }

  /** The hooks that worker x began to process, in order. */
  ghost function Processed(run: seq<State>, actions: seq<Action>, i: nat, x: nat): seq<Hook>
    requires i <= |actions| < |run| && forall j :: 0 <= j < |run| ==> x < |run[j].lanes|
  {
    if i == 0 then []
    else
      var pc, pc' := run[i - 1].lanes[x].pc, run[i].lanes[x].pc;
      Processed(run, actions, i - 1, x) + if !pc.Busy? && pc'.Busy? then [pc'.s] else []
  }

  /** How often worker x has come through sem_wait. */
  ghost function Wakings(run: seq<State>, actions: seq<Action>, i: nat, x: nat): nat
    requires i <= |actions| < |run| && forall j :: 0 <= j < |run| ==> x < |run[j].lanes|
  {
    if i == 0 then 0
    else Wakings(run, actions, i - 1, x) + if actions[i - 1] == Work(x) && run[i - 1].lanes[x].pc == Wait then 1 else 0
  }

  /** The event that the dispatcher has in hand for worker x and has not linked to its queue yet. */
  ghost function Carried(s: State, x: nat): seq<Hook> {
    match s.disp
    case Ready(h, close) =>
      if !close && h in s.hooks && |s.lanes| > 0 && s.hooks[h].fd % |s.lanes| == x then [h] else []
    case Ref(h) => if h in s.hooks && |s.lanes| > 0 && s.hooks[h].fd % |s.lanes| == x then [h] else []
    case NewNode(h, y) => if y == x then [h] else []
    case Link(h, y, _) => if y == x then [h] else []
    case _ => []
  }

  lemma SameCarried(s: State, s': State, x: nat)
    requires s'.disp == s.disp && |s'.lanes| == |s.lanes|
    requires s.disp.Ready? || s.disp.Ref? ==>
      s.disp.h in s.hooks && s.disp.h in s'.hooks && s'.hooks[s.disp.h].fd == s.hooks[s.disp.h].fd
    ensures Carried(s', x) == Carried(s, x)
  {
  }

  // One step moves at most one event from hand to queue, or from poll to hand.
  lemma StepCarries(s: State, a: Action, x: nat)
    requires Inv(s) && Enabled(s, a) && Safe(s, a) && Inv(Do(s, a)) && x < |s.lanes|
    ensures |Do(s, a).lanes| == |s.lanes|
    ensures var s' := Do(s, a);
      s'.lanes[x].sent + Carried(s', x) == s.lanes[x].sent + Carried(s, x)
        + if a.Event? && !a.close && s.hooks[a.h].fd % |s.lanes| == x then [a.h] else []
  {
    var s' := Do(s, a);
    match a
    case Work(y) => SameCarried(s, s', x);
    case _ =>
  }

  /** Every event that arrives is sent, in order, to the worker of its descriptor; at most one is still in hand. */
  lemma {:induction false} SentAreArrived(run: seq<State>, actions: seq<Action>, n: nat, dummy: Ptr, i: nat, x: nat)
    requires IsRun(run, actions, n, dummy) && i < |run| && x < n
    ensures |run[i].lanes| == n
    ensures Arrived(run, actions, i, x) == run[i].lanes[x].sent + Carried(run[i], x)
  {
    RunKeeps(run, actions, n, dummy, i);
    if i > 0 {
      SentAreArrived(run, actions, n, dummy, i - 1, x);
      RunKeeps(run, actions, n, dummy, i - 1);
      assert run[i - 1 + 1] == Do(run[i - 1], actions[i - 1]);
      StepCarries(run[i - 1], actions[i - 1], x);
    }
  }

  lemma LanesStay(run: seq<State>, actions: seq<Action>, n: nat, dummy: Ptr)
    requires IsRun(run, actions, n, dummy)
    ensures forall j :: 0 <= j < |run| ==> |run[j].lanes| == n
  {
    forall j | 0 <= j < |run| ensures |run[j].lanes| == n { RunKeeps(run, actions, n, dummy, j); }
  }

  // What a worker's step does to its history and to what it has taken from its semaphore.
  lemma WorkerProcesses(lane: Lane, hooks: Hooks, d: Dispatcher, x: nat, l: seq<Ptr>, i: int)
    requires LaneInv(lane, d, x, l, i) && (lane.pc == Wait ==> lane.sem > 0) && WorkerSafe(lane, hooks)
    ensures var lane' := WorkerStep(lane, hooks).0;
      && lane'.handled == lane.handled + (if !lane.pc.Busy? && lane'.pc.Busy? then [lane'.pc.s] else [])
      && |lane'.handled| + Fetched(lane'.pc) + Granted(lane'.pc)
         == |lane.handled| + Fetched(lane.pc) + Granted(lane.pc) + if lane.pc == Wait then 1 else 0
  {
    if lane.pc.Test? {
      TestNeverSaysEmpty(lane, hooks, d, x, l, i);
    } else if lane.pc == Value {
      assert lane.sent[|lane.handled|] in lane.sent;
    }
  }

  lemma StepProcesses(s: State, a: Action, x: nat)
    requires Inv(s) && Enabled(s, a) && Safe(s, a) && x < |s.lanes|
    ensures |Do(s, a).lanes| == |s.lanes|
    ensures var lane, lane' := s.lanes[x], Do(s, a).lanes[x];
      && lane'.handled == lane.handled + (if !lane.pc.Busy? && lane'.pc.Busy? then [lane'.pc.s] else [])
      && |lane'.handled| + Fetched(lane'.pc) + Granted(lane'.pc)
         == |lane.handled| + Fetched(lane.pc) + Granted(lane.pc) + if a == Work(x) && lane.pc == Wait then 1 else 0
  {
    if a == Work(x) {
      assert LaneOk(s.lanes[x], s.disp, x);
      var l, k :| LaneInv(s.lanes[x], s.disp, x, l, k);
      WorkerProcesses(s.lanes[x], s.hooks, s.disp, x, l, k);
    }
  }

  lemma {:induction false} HandledAreProcessed(run: seq<State>, actions: seq<Action>, n: nat, dummy: Ptr, i: nat,
                                               x: nat)
    requires IsRun(run, actions, n, dummy) && i < |run| && x < n
    requires forall j :: 0 <= j < |run| ==> |run[j].lanes| == n
    ensures Processed(run, actions, i, x) == run[i].lanes[x].handled
    ensures Wakings(run, actions, i, x) == |run[i].lanes[x].handled| + Fetched(run[i].lanes[x].pc)
                                           + Granted(run[i].lanes[x].pc)
  {
    if i > 0 {
      HandledAreProcessed(run, actions, n, dummy, i - 1, x);
      RunKeeps(run, actions, n, dummy, i - 1);
      assert run[i - 1 + 1] == Do(run[i - 1], actions[i - 1]);
      StepProcesses(run[i - 1], actions[i - 1], x);
    }
  }

  /**
   * In every state of every run, each worker has begun to process, in the order of their arrival and none twice, the
   * first of the events whose descriptor is its own number modulo n. For each of them its semaphore is posted once,
   * at the latest when the dispatcher polls again; and when it waits at zero then, all events are processed.
   */
  lemma EventsInOrder(run: seq<State>, actions: seq<Action>, n: nat, dummy: Ptr, i: nat, x: nat)
    requires IsRun(run, actions, n, dummy) && i < |run| && x < n
    ensures forall j :: 0 <= j < |run| ==> |run[j].lanes| == n
    ensures Processed(run, actions, i, x) <= Arrived(run, actions, i, x)
    ensures var lane := run[i].lanes[x];
      && |Arrived(run, actions, i, x)|
         == Wakings(run, actions, i, x) + lane.sem + Owed(run[i].disp, x) + |Carried(run[i], x)|
      && (run[i].disp == Poll ==> |Arrived(run, actions, i, x)| == Wakings(run, actions, i, x) + lane.sem)
      && (run[i].disp == Poll && lane.pc == Wait && lane.sem == 0 ==>
           Processed(run, actions, i, x) == Arrived(run, actions, i, x))
    ensures var pc := run[i].lanes[x].pc; pc.Busy? ==> pc.s in run[i].hooks && run[i].hooks[pc.s].fd % n == x
  {
    LanesStay(run, actions, n, dummy);
    SentAreArrived(run, actions, n, dummy, i, x);
    HandledAreProcessed(run, actions, n, dummy, i, x);
    RunKeeps(run, actions, n, dummy, i);
    var lane := run[i].lanes[x];
    assert LaneOk(lane, run[i].disp, x);
    var l, k :| LaneInv(lane, run[i].disp, x, l, k);
    if lane.pc.Busy? {
      HeldIsAlive(run[i], x, lane.pc.s);
      assert Routed(run[i], x, lane.pc.s);
    }
  }

  /**
   * When the dispatcher has trimmed a worker's queue, all nodes are freed but the divider and those of events that
   * the worker has not fetched.
   */
  lemma UsedNodesAreFreed(run: seq<State>, actions: seq<Action>, n: nat, dummy: Ptr, i: nat, x: nat)
    requires IsRun(run, actions, n, dummy) && i < |actions| && x < n && actions[i].Dispatch?
    requires run[i].disp == Trim(x) && run[i + 1].disp == Post(x)
    ensures forall j :: 0 <= j < |run| ==> |run[j].lanes| == n
    ensures |run[i].lanes[x].q.heap|
            == 1 + |Arrived(run, actions, i, x)| - |Processed(run, actions, i, x)| - Fetched(run[i].lanes[x].pc)
  {
    LanesStay(run, actions, n, dummy);
    SentAreArrived(run, actions, n, dummy, i, x);
    HandledAreProcessed(run, actions, n, dummy, i, x);
    RunKeeps(run, actions, n, dummy, i);
    assert run[i + 1] == Do(run[i], actions[i]);
    var lane := run[i].lanes[x];
    assert LaneOk(lane, run[i].disp, x);
    var l, k :| LaneInv(lane, run[i].disp, x, l, k);
    assert k > 0 ==> Differ(l, 0, k);
    HeapSize(lane.q, l);
  }

  /** The last that the first i actions say of a hook is that it was accepted, not that its peer has closed. */
  ghost predicate AcceptedNotClosed(actions: seq<Action>, i: nat, h: Hook)
    requires i <= |actions|
  {
    i > 0 && match actions[i - 1]
             case Accept(g, _) => g == h || AcceptedNotClosed(actions, i - 1, h)
             case Event(g, close) => !(g == h && close) && AcceptedNotClosed(actions, i - 1, h)
             case _ => AcceptedNotClosed(actions, i - 1, h)
  }

  /** The descriptor with which the hook was last accepted. */
  ghost function LastFd(actions: seq<Action>, i: nat, h: Hook): nat
    requires i <= |actions|
  {
    if i == 0 then 0
    else match actions[i - 1]
         case Accept(g, fd) => if g == h then fd else LastFd(actions, i - 1, h)
         case _ => LastFd(actions, i - 1, h)
  }

  predicate IsOpen(s: State, h: Hook) { h in s.hooks && s.hooks[h].open }

  lemma StepOpens(s: State, a: Action, h: Hook)
    requires Inv(s) && Enabled(s, a) && Safe(s, a)
    ensures var s' := Do(s, a);
      match a
      case Accept(g, fd) => if g == h then IsOpen(s', h) && s'.hooks[h].fd == fd else IsOpen(s', h) == IsOpen(s, h)
      case Event(_, _) => IsOpen(s', h) == IsOpen(s, h)
      case Dispatch(_) => IsOpen(s', h) == (IsOpen(s, h) && s.disp != Ready(h, true))
      case Work(_) => IsOpen(s', h) == IsOpen(s, h)
    ensures h in s.hooks && h in Do(s, a).hooks ==> Do(s, a).hooks[h].fd == s.hooks[h].fd
    ensures h !in s.hooks && h in Do(s, a).hooks ==> a.Accept? && a.h == h
  {
    if h in s.hooks && h !in Do(s, a).hooks {
      FreedWhenUnused(s, a, h);
    }
  }

  /**
   * A hook is open from its acceptance until the dispatcher takes in the event that closes it, and all that time it
   * is allocated with the descriptor it was accepted with.
   */
  lemma {:induction false} OpenUntilClosed(run: seq<State>, actions: seq<Action>, n: nat, dummy: Ptr, i: nat, h: Hook)
    requires IsRun(run, actions, n, dummy) && i < |run|
    ensures IsOpen(run[i], h) <==> AcceptedNotClosed(actions, i, h) || run[i].disp == Ready(h, true)
    ensures run[i].disp == Ready(h, true) ==> !AcceptedNotClosed(actions, i, h)
    ensures h in run[i].hooks ==> run[i].hooks[h].fd == LastFd(actions, i, h)
  {
    RunKeeps(run, actions, n, dummy, i);
    if i > 0 {
      OpenUntilClosed(run, actions, n, dummy, i - 1, h);
      RunKeeps(run, actions, n, dummy, i - 1);
      assert run[i - 1 + 1] == Do(run[i - 1], actions[i - 1]);
      StepOpens(run[i - 1], actions[i - 1], h);
    }
  }

  // How far a worker still is from waiting again.
  function StepsToWait(pc: Worker): nat {
    match pc
    case Wait => 0
    case ReadLast => 9
    case Test(_) => 8
    case Step => 7
    case Advance(_) => 6
    case Value => 5
    case Check(_) => 4
    case Busy(_) => 3
    case Drop(_) => 2
    case Free(_) => 1
    case Empty => 1
  }

  // How far the dispatcher is from polling again, but for the nodes it frees on the way.
  function StepsToPoll(d: Dispatcher): nat {
    match d
    case Poll => 0
    case Post(_) => 1
    case FreeNode(_, _) => 2
    case Take(_) => 3
    case Trim(_) => 4
    case SetLast(_, _) => 5
    case Link(_, _, _) => 6
    case NewNode(_, _) => 7
    case Ref(_) => 8
    case FreeOpen(_) => 1
    case DropOpen(_) => 2
    case Ready(_, _) => 9
  }

  /**
   * Nobody gets stuck: a worker that has an event waits again after nine steps, and every step of the dispatcher
   * brings it nearer to its next poll or frees a node of the queue it is at.
   */
  lemma EveryoneGoesOn(run: seq<State>, actions: seq<Action>, n: nat, dummy: Ptr, i: nat)
    requires IsRun(run, actions, n, dummy) && i < |actions|
    ensures forall j :: 0 <= j < |run| ==> |run[j].lanes| == n
    ensures actions[i].Work? && run[i].lanes[actions[i].x].pc != Wait ==>
      StepsToWait(run[i + 1].lanes[actions[i].x].pc) < StepsToWait(run[i].lanes[actions[i].x].pc)
    ensures actions[i].Dispatch? && !run[i].disp.FreeNode? ==> StepsToPoll(run[i + 1].disp) < StepsToPoll(run[i].disp)
    ensures actions[i].Dispatch? && run[i].disp.FreeNode? ==>
      var x := run[i].disp.x;
      run[i + 1].disp == Trim(x) && x < n && |run[i + 1].lanes[x].q.heap| < |run[i].lanes[x].q.heap|
  {
    LanesStay(run, actions, n, dummy);
    var s := run[i];
    RunKeeps(run, actions, n, dummy, i);
    assert run[i + 1] == Do(s, actions[i]);
    if actions[i].Work? {
      LaneFacts(s, actions[i].x);
    } else if s.disp.FreeNode? {
      LaneFacts(s, s.disp.x);
      var q, q' := s.lanes[s.disp.x].q, Release(s.lanes[s.disp.x].q, s.disp.tmp);
      assert q'.heap.Keys == q.heap.Keys - {s.disp.tmp};
      assert |q'.heap| == |q'.heap.Keys| && |q.heap| == |q.heap.Keys|;
    }
  }

  lemma {:induction false} OccursIn(hs: seq<Hook>, h: Hook)
    ensures h in hs <==> Occurs(hs, h) > 0
  {
    if |hs| > 0 {
      OccursIn(hs[1..], h);
      assert h in hs <==> h == hs[0] || h in hs[1..];
    }
  }

  /** A hook that is queued or being processed has not been freed. */
  lemma QueuedHooksAreAlive(run: seq<State>, actions: seq<Action>, n: nat, dummy: Ptr, i: nat, x: nat, h: Hook)
    requires IsRun(run, actions, n, dummy) && i < |run| && x < n
    ensures |run[i].lanes| == n
    ensures h in Unhandled(run[i].lanes[x]) || run[i].lanes[x].pc == Busy(h) ==> h in run[i].hooks
  {
    RunKeeps(run, actions, n, dummy, i);
    OccursIn(Unhandled(run[i].lanes[x]), h);
    if LaneRefs(run[i].lanes[x], h) > 0 {
      HeldIsAlive(run[i], x, h);
    }
  }

  /** A hook is freed once only, closed, and when it is neither queued nor processed by anyone. */
  lemma FreedWhenUnused(s: State, a: Action, h: Hook)
    requires Inv(s) && Enabled(s, a) && Safe(s, a) && h in s.hooks && h !in Do(s, a).hooks
    ensures s.hooks[h].refcnt == 0 && !s.hooks[h].open && Refs(s, h) == 0
    ensures Frees(s, h) == 1 && Frees(Do(s, a), h) == 0
  {
    assert Balanced(s, h);
    match a
    case Work(x) =>
      TotalAt(s.lanes, x, s.lanes[x], h);
      WorkBalances(s, x, h);
    case Dispatch(np) =>
      DispatchBalances(s, np, h);
    case _ =>
  }

  /**
    The same in every interleaving: whoever frees a hook, nothing refers to it, and the next step of nobody frees it
    again.
   */
  lemma FreedOnce(run: seq<State>, actions: seq<Action>, n: nat, dummy: Ptr, i: nat, h: Hook)
    requires IsRun(run, actions, n, dummy) && i < |actions| && h in run[i].hooks && h !in run[i + 1].hooks
    ensures Refs(run[i], h) == 0 && !run[i].hooks[h].open && |run[i].lanes| == n
    ensures forall x :: 0 <= x < n ==> h !in Unhandled(run[i].lanes[x]) && run[i].lanes[x].pc != Busy(h)
    ensures Frees(run[i], h) == 1 && Frees(run[i + 1], h) == 0
  {
    RunKeeps(run, actions, n, dummy, i);
    assert run[i + 1] == Do(run[i], actions[i]);
    FreedWhenUnused(run[i], actions[i], h);
    forall x | 0 <= x < n ensures h !in Unhandled(run[i].lanes[x]) && run[i].lanes[x].pc != Busy(h) {
      TotalAt(run[i].lanes, x, run[i].lanes[x], h);
      OccursIn(Unhandled(run[i].lanes[x]), h);
    }
  }

  /** Nothing leaks: a closed hook that nothing refers to any more is about to be freed by one thread. */
  lemma ClosedHooksGo(run: seq<State>, actions: seq<Action>, n: nat, dummy: Ptr, i: nat, h: Hook)
    requires IsRun(run, actions, n, dummy) && i < |run| && h in run[i].hooks && !run[i].hooks[h].open
    ensures Refs(run[i], h) > 0 || Frees(run[i], h) == 1
  {
    RunKeeps(run, actions, n, dummy, i);
    assert Balanced(run[i], h);
  }
}
