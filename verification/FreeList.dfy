/**
  The node pool of lib/atomic_hash/src/atomic_hash.c: a free list whose head carries a tag, popped and
  pushed by compare-and-swap, and blocks of fresh nodes that any thread may add. Every access to shared
  memory is one step of one thread.
 */
module FreeList {
  import opened Basics
  import opened Words

  const NNULL := 0xFFFF_FFFF

  /** A node number with a counter: the two halves of the word that compare-and-swap compares. */
  datatype Word = Word(mi: int, rfn: nat)

  /** Where a thread stands in new_node, new_mem_block or free_node, with its local variables. */
  datatype Pc =
    | Idle
    | Check
    | ReadCurr
    | ReadHead
    | ReadLink(n: Word)
    | CasPop(n: Word, next: int)
    | Scan(i: nat)
    | Count(b: nat)
    | Chain(b: nat, k: nat)
    | BlockRead(b: nat)
    | BlockSet(b: nat, n: Word)
    | BlockCas(b: nat, n: Word)
    | FreeRead(x: int)
    | FreeSet(x: int, n: Word)
    | FreeCas(x: int, n: Word)

  /** The sizes of a pool: block b holds the nodes b * (m + 1) up to b * (m + 1) + m. */
  datatype Pool = Pool(maxBlocks: nat, m: nat) {
    function First(b: nat): int { b * (m + 1) }

    predicate InBlock(b: nat, x: int) { First(b) <= x <= First(b) + m }

    /** The number NNULL, which ends a list, is no node's. */
    ghost predicate NullIsNoNode() { First(maxBlocks) <= NNULL }
  }

  datatype State = State(freelist: Word, link: map<int, int>, ba: set<nat>, curr: nat, owned: set<int>, pcs: seq<Pc>)

  datatype Action =
    | Go(t: nat)
    | CallNew(t: nat)
    | CallFree(t: nat, x: int)
    | OwnerWrites(x: int, v: int)

  function Start(threads: nat): State {
    State(Word(NNULL, 0), map[], {}, 0, {}, seq(threads, _ => Idle))
  }

  function Link(s: State, x: int): int {
    if x in s.link then s.link[x] else 0
  }

  function At(s: State, t: nat, pc: Pc): State
    requires t < |s.pcs|
  {
    s.(pcs := s.pcs[t := pc])
  }

  /** The links of a new block before they are written: calloc gives zeros. */
  function Fresh(p: Pool, b: nat): map<int, int> {
    map x: int | p.First(b) <= x <= p.First(b) + p.m && p.InBlock(b, x) :: 0
  }

  /** One step of thread t. */
  function Step(p: Pool, s: State, t: nat): State
    requires t < |s.pcs|
  {
    match s.pcs[t]
    case Idle => s
    case Check => At(s, t, if s.freelist.mi != NNULL then ReadHead else ReadCurr)
    case ReadCurr => At(s, t, Scan(s.curr))
    case ReadHead => At(s, t, if s.freelist.mi == NNULL then Check else ReadLink(s.freelist))
    case ReadLink(n) => At(s, t, CasPop(n, Link(s, n.mi)))
    case CasPop(n, next) =>
      if s.freelist == n then
        At(s.(freelist := Word(next, n.rfn + 1), owned := s.owned + {n.mi}), t, Idle)
      else
        At(s, t, Check)
    case Scan(i) =>
      if i >= p.maxBlocks then At(s, t, Idle)
      else if i in s.ba then At(s, t, Scan(i + 1))
      else At(s.(ba := s.ba + {i}, link := s.link + Fresh(p, i)), t, Count(i))
    case Count(b) => At(s.(curr := s.curr + 1), t, Chain(b, 0))
    case Chain(b, k) =>
      if k < p.m then At(s.(link := s.link[p.First(b) + k := p.First(b) + k + 1]), t, Chain(b, k + 1))
      else At(s.(link := s.link[p.First(b) + p.m := NNULL]), t, BlockRead(b))
    case BlockRead(b) => At(s, t, BlockSet(b, s.freelist))
    case BlockSet(b, n) => At(s.(link := s.link[p.First(b) + p.m := n.mi]), t, BlockCas(b, n))
    case BlockCas(b, n) =>
      if s.freelist == n then At(s.(freelist := Word(p.First(b), n.rfn + 1)), t, ReadHead)
      else At(s, t, BlockRead(b))
    case FreeRead(x) => At(s, t, FreeSet(x, s.freelist))
    case FreeSet(x, n) => At(s.(link := s.link[x := n.mi]), t, FreeCas(x, n))
    case FreeCas(x, n) =>
      if s.freelist == n then At(s.(freelist := Word(x, n.rfn + 1)), t, Idle)
      else At(s, t, FreeRead(x))
  }

  /**
    A thread starts a call when it is idle; only nodes that are owned are freed or written by others than the list code.
   */
  predicate Enabled(s: State, a: Action) {
    match a
    case Go(t) => t < |s.pcs|
    case CallNew(t) => t < |s.pcs| && s.pcs[t].Idle?
    case CallFree(t, x) => t < |s.pcs| && s.pcs[t].Idle? && x in s.owned
    case OwnerWrites(x, v) => x in s.owned
  }

  function Do(p: Pool, s: State, a: Action): State
    requires Enabled(s, a)
  {
    match a
    case Go(t) => Step(p, s, t)
    case CallNew(t) => At(s, t, Check)
    case CallFree(t, x) => At(s.(owned := s.owned - {x}), t, FreeRead(x))
    case OwnerWrites(x, v) => s.(link := s.link[x := v])
  }

  /** The states of a run from the start, one action after the other. */
  ghost predicate IsRun(p: Pool, run: seq<State>, actions: seq<Action>, threads: nat) {
    && |run| == |actions| + 1 && run[0] == Start(threads)
    && forall i :: 0 <= i < |actions| ==> Enabled(run[i], actions[i]) && run[i + 1] == Do(p, run[i], actions[i])
  }

  // ---- what every state of a run keeps -----------------------------------------------------------

  /** The one place of a node. */
  datatype Place = Free | Owned | With(t: nat)

  ghost predicate Installed(p: Pool, s: State, x: int) {
    exists b :: b in s.ba && p.InBlock(b, x)
  }

  /** The nodes that a thread has in hand: the one it frees or the block it adds. */
  predicate Holds(p: Pool, pc: Pc, x: int) {
    match pc
    case Count(b) => p.InBlock(b, x)
    case Chain(b, _) => p.InBlock(b, x)
    case BlockRead(b) => p.InBlock(b, x)
    case BlockSet(b, _) => p.InBlock(b, x)
    case BlockCas(b, _) => p.InBlock(b, x)
    case FreeRead(y) => x == y
    case FreeSet(y, _) => x == y
    case FreeCas(y, _) => x == y
    case _ => false
  }

  /** Following the links from head visits the nodes of free in order and ends. */
  ghost predicate Follows(link: map<int, int>, head: int, free: seq<int>)
    decreases |free|
  {
    if |free| == 0 then head == NNULL
    else head == free[0] && head in link && Follows(link, link[head], free[1..])
  }

  // A word that a thread has read: an earlier head, or the head as it is if the tag has not changed since.
  ghost predicate ReadBefore(p: Pool, s: State, n: Word) {
    && n.rfn <= s.freelist.rfn && (n.rfn == s.freelist.rfn ==> n == s.freelist)
    && (n.mi != NNULL ==> Installed(p, s, n.mi))
  }

  // The first k links of block b are written.
  ghost predicate Written(p: Pool, s: State, b: nat, k: nat) {
    forall x :: p.First(b) <= x < p.First(b) + k ==> Link(s, x) == x + 1
  }

  // What a thread knows at each point, whatever the others do.
  ghost predicate Knows(p: Pool, s: State, pc: Pc) {
    match pc
    case ReadLink(n) => n.mi != NNULL && ReadBefore(p, s, n)
    case CasPop(n, next) => n.mi != NNULL && ReadBefore(p, s, n) && (n == s.freelist ==> next == Link(s, n.mi))
    case Chain(b, k) => k <= p.m && Written(p, s, b, k)
    case BlockRead(b) => Written(p, s, b, p.m)
    case BlockSet(b, n) => Written(p, s, b, p.m) && ReadBefore(p, s, n)
    case BlockCas(b, n) => Written(p, s, b, p.m) && ReadBefore(p, s, n) && Link(s, p.First(b) + p.m) == n.mi
    case FreeSet(x, n) => ReadBefore(p, s, n)
    case FreeCas(x, n) => ReadBefore(p, s, n) && Link(s, x) == n.mi
    case _ => true
  }

  /** Every installed node is in one place: on the list, owned, or in the hands of one thread. */
  ghost predicate Placed(p: Pool, s: State, free: seq<int>, at: map<int, Place>) {
    && (forall x {:trigger Installed(p, s, x)} :: Installed(p, s, x) <==> x in at)
    && at.Keys == s.link.Keys
    && (forall x :: x in free <==> x in at && at[x] == Free)
    && (forall x :: x in s.owned <==> x in at && at[x] == Owned)
    && InHand(p, s.pcs, at)
  }

  ghost predicate InHand(p: Pool, pcs: seq<Pc>, at: map<int, Place>) {
    && (forall t, x :: 0 <= t < |pcs| && Holds(p, pcs[t], x) ==> x in at && at[x] == With(t))
    && (forall x :: x in at && at[x].With? ==> at[x].t < |pcs| && Holds(p, pcs[at[x].t], x))
  }

  ghost predicate Inv(p: Pool, s: State, free: seq<int>, at: map<int, Place>) {
    && Placed(p, s, free, at)
    && Follows(s.link, s.freelist.mi, free) && Distinct(free)
    && (forall t :: 0 <= t < |s.pcs| ==> Knows(p, s, s.pcs[t]))
    && (forall b :: b in s.ba ==> b < p.maxBlocks)
  }

  // ---- one lemma for each kind of step -------------------------------------------------------------

  ghost predicate InvSome(p: Pool, s: State) {
    exists free, at :: Inv(p, s, free, at)
  }

  // What a thread knows depends on its own nodes, and on the head's link while the tag stands.
  lemma KnowsStays(p: Pool, s: State, s': State, pc: Pc)
    requires Knows(p, s, pc) && s.ba <= s'.ba && s.freelist.rfn <= s'.freelist.rfn
    requires s.freelist.rfn == s'.freelist.rfn ==> s.freelist == s'.freelist
    requires s.freelist == s'.freelist && s.freelist.mi != NNULL ==> Link(s, s.freelist.mi) == Link(s', s.freelist.mi)
    requires forall x :: Holds(p, pc, x) ==> Link(s, x) == Link(s', x)
    ensures Knows(p, s', pc)
  {
    match pc
    case Chain(b, k) => {
      forall x | p.First(b) <= x < p.First(b) + k ensures Link(s', x) == x + 1 { assert Holds(p, pc, x); }
    }
    case BlockRead(b) => {
      forall x | p.First(b) <= x < p.First(b) + p.m ensures Link(s', x) == x + 1 { assert Holds(p, pc, x); }
    }
    case BlockSet(b, n) => {
      forall x | p.First(b) <= x < p.First(b) + p.m ensures Link(s', x) == x + 1 { assert Holds(p, pc, x); }
    }
    case BlockCas(b, n) => {
      assert Holds(p, pc, p.First(b) + p.m);
      forall x | p.First(b) <= x < p.First(b) + p.m ensures Link(s', x) == x + 1 { assert Holds(p, pc, x); }
    }
    case FreeCas(x, n) => { assert Holds(p, pc, x); }
    case _ =>
  }

  // Steps that change nothing but the point where thread t stands.
  lemma OnlyMoves(p: Pool, s: State, t: nat, pc: Pc, free: seq<int>, at: map<int, Place>)
    requires Inv(p, s, free, at) && t < |s.pcs| && Knows(p, s, pc)
    requires forall x :: Holds(p, pc, x) <==> Holds(p, s.pcs[t], x)
    ensures Inv(p, At(s, t, pc), free, at)
  {
    var s' := At(s, t, pc);
    forall u | 0 <= u < |s'.pcs| ensures Knows(p, s', s'.pcs[u]) {
      assert Knows(p, s, s'.pcs[u]);
      KnowsStays(p, s, s', s'.pcs[u]);
    }
    assert forall x :: Installed(p, s', x) <==> Installed(p, s, x);
  }

  // Thread t writes the link of a node that it has in hand.
  lemma WritesOwn(p: Pool, s: State, t: nat, pc: Pc, x: int, v: int, free: seq<int>, at: map<int, Place>)
    requires Inv(p, s, free, at) && t < |s.pcs| && Holds(p, s.pcs[t], x)
    requires forall y :: Holds(p, pc, y) <==> Holds(p, s.pcs[t], y)
    requires Knows(p, s.(link := s.link[x := v]), pc)
    ensures Inv(p, At(s.(link := s.link[x := v]), t, pc), free, at)
  {
    var s1 := s.(link := s.link[x := v]);
    var s' := At(s1, t, pc);
    assert at[x] == With(t) && x !in free;
    FollowsStays(s.link, s'.link, s.freelist.mi, free);
    HeadIsFree(p, s, free, at);
    forall u | 0 <= u < |s'.pcs| ensures Knows(p, s', s'.pcs[u]) {
      if u == t {
        KnowsStays(p, s1, s', pc);
      } else {
        assert Knows(p, s, s.pcs[u]);
        KnowsStays(p, s, s', s.pcs[u]);
      }
    }
    assert forall y :: Installed(p, s', y) <==> Installed(p, s, y);
  }

  lemma HeadIsFree(p: Pool, s: State, free: seq<int>, at: map<int, Place>)
    requires Inv(p, s, free, at)
    ensures s.freelist.mi != NNULL ==>
            free != [] && s.freelist.mi == free[0] && s.freelist.mi in at && at[s.freelist.mi] == Free
  {
    assert free != [] ==> free[0] in free;
  }

  // What any other thread knows survives a change of the head and of the places of nodes that are not its own.
  lemma OthersKnow(p: Pool, s: State, s': State, t: nat, free: seq<int>, at: map<int, Place>)
    requires Inv(p, s, free, at) && t < |s.pcs| && |s'.pcs| == |s.pcs| && s.ba <= s'.ba
    requires forall u :: 0 <= u < |s.pcs| && u != t ==> s'.pcs[u] == s.pcs[u]
    requires s.freelist == s'.freelist || s.freelist.rfn < s'.freelist.rfn
    requires forall x :: x in at && at[x] != With(t) ==> Link(s', x) == Link(s, x)
    ensures forall u :: 0 <= u < |s.pcs| && u != t ==> Knows(p, s', s'.pcs[u])
  {
    HeadIsFree(p, s, free, at);
    forall u | 0 <= u < |s.pcs| && u != t ensures Knows(p, s', s'.pcs[u]) {
      assert Knows(p, s, s.pcs[u]);
      KnowsStays(p, s, s', s.pcs[u]);
    }
  }

  // The list depends on the links of its own nodes only.
  lemma {:induction false} FollowsStays(link: map<int, int>, link': map<int, int>, head: int, free: seq<int>)
    requires Follows(link, head, free)
    requires forall x :: x in free && x in link ==> x in link' && link'[x] == link[x]
    ensures Follows(link', head, free)
    decreases |free|
  {
    if |free| > 0 {
      assert free[0] in free;
      assert forall x :: x in free[1..] ==> x in free;
      FollowsStays(link, link', link[head], free[1..]);
    }
  }

  ghost predicate Leads(link: map<int, int>, front: seq<int>, head: int)
    decreases |front|
  {
    && |front| > 0 && front[0] in link
    && if |front| == 1 then link[front[0]] == head else link[front[0]] == front[1] && Leads(link, front[1..], head)
  }

  lemma {:induction false} FollowsOn(link: map<int, int>, head: int, free: seq<int>, front: seq<int>)
    requires Follows(link, head, free) && Leads(link, front, head)
    ensures Follows(link, front[0], front + free)
    decreases |front|
  {
    assert (front + free)[1..] == front[1..] + free;
    if |front| == 1 {
      assert front[1..] + free == free;
    } else {
      FollowsOn(link, head, free, front[1..]);
    }
  }

  /** A pop that finds the head unchanged takes the first node: the link it read was not stale. */
  lemma PopWins(p: Pool, s: State, t: nat, free: seq<int>, at: map<int, Place>)
    requires Inv(p, s, free, at) && t < |s.pcs| && s.pcs[t].CasPop? && s.pcs[t].n == s.freelist
    ensures free != [] && s.freelist.mi == free[0] && free[0] !in s.owned
    ensures Inv(p, Step(p, s, t), free[1..], at[free[0] := Owned])
  {
    var s' := Step(p, s, t);
    assert Knows(p, s, s.pcs[t]);
    HeadIsFree(p, s, free, at);
    OthersKnow(p, s, s', t, free, at);
    RestOf(free);
    assert forall x :: Installed(p, s', x) <==> Installed(p, s, x);
  }

  lemma RestOf(free: seq<int>)
    requires free != [] && Distinct(free)
    ensures Distinct(free[1..]) && forall x :: x in free[1..] <==> x in free && x != free[0]
  {
    assert free == [free[0]] + free[1..];
  }

  // Nodes that thread t has linked in front of the list.
  ghost predicate Linked(p: Pool, s: State, t: nat, front: seq<int>)
    requires t < |s.pcs|
  {
    && front != []
    && (forall x :: x in front <==> Holds(p, s.pcs[t], x))
    && Distinct(front) && Leads(s.link, front, s.freelist.mi)
  }

  function Freed(at: map<int, Place>, t: nat): map<int, Place> {
    map x | x in at :: if at[x] == With(t) then Free else at[x]
  }

  lemma PushedList(p: Pool, s: State, t: nat, front: seq<int>, free: seq<int>, at: map<int, Place>)
    requires Inv(p, s, free, at) && t < |s.pcs| && Linked(p, s, t, front)
    ensures Follows(s.link, front[0], front + free) && Distinct(front + free)
  {
    forall x | x in front ensures x in at && at[x] == With(t) {}
    forall i, j | 0 <= i < |front| && 0 <= j < |free| ensures front[i] != free[j] {
      assert front[i] in front && free[j] in free;
    }
    FollowsOn(s.link, s.freelist.mi, free, front);
  }

  lemma PushedPlaces(p: Pool, s: State, s': State, t: nat, pc: Pc, front: seq<int>, free: seq<int>, at: map<int, Place>)
    requires Placed(p, s, free, at) && t < |s.pcs| && (pc == Idle || pc == ReadHead)
    requires forall x :: x in front <==> Holds(p, s.pcs[t], x)
    requires |front| > 0 && s' == At(s.(freelist := Word(front[0], s.freelist.rfn + 1)), t, pc)
    ensures Placed(p, s', front + free, Freed(at, t))
  {
    assert forall x :: Installed(p, s', x) <==> Installed(p, s, x);
  }

  /** A push that finds the head unchanged puts its nodes in front. */
  lemma PushWins(p: Pool, s: State, t: nat, pc: Pc, front: seq<int>, free: seq<int>, at: map<int, Place>)
    requires Inv(p, s, free, at) && t < |s.pcs| && Linked(p, s, t, front) && (pc == Idle || pc == ReadHead)
    ensures Inv(p, At(s.(freelist := Word(front[0], s.freelist.rfn + 1)), t, pc), front + free, Freed(at, t))
  {
    var s' := At(s.(freelist := Word(front[0], s.freelist.rfn + 1)), t, pc);
    PushedPlaces(p, s, s', t, pc, front, free, at);
    PushedList(p, s, t, front, free, at);
    OthersKnow(p, s, s', t, free, at);
  }

  lemma FreeWins(p: Pool, s: State, t: nat, free: seq<int>, at: map<int, Place>)
    requires Inv(p, s, free, at) && t < |s.pcs| && s.pcs[t].FreeCas? && s.pcs[t].n == s.freelist
    ensures Inv(p, Step(p, s, t), [s.pcs[t].x] + free, Freed(at, t))
  {
    assert Knows(p, s, s.pcs[t]);
    assert Holds(p, s.pcs[t], s.pcs[t].x);
    PushWins(p, s, t, Idle, [s.pcs[t].x], free, at);
  }

  function BlockList(p: Pool, b: nat): seq<int> {
    seq(p.m + 1, i => p.First(b) + i)
  }

  lemma {:induction false} BlockLeads(p: Pool, s: State, t: nat, k: nat)
    requires t < |s.pcs| && s.pcs[t].BlockCas? && k <= p.m
    requires Written(p, s, s.pcs[t].b, p.m) && Link(s, p.First(s.pcs[t].b) + p.m) == s.freelist.mi
    requires forall x :: p.InBlock(s.pcs[t].b, x) ==> x in s.link
    ensures Leads(s.link, BlockList(p, s.pcs[t].b)[k..], s.freelist.mi)
    decreases p.m - k
  {
    var b := s.pcs[t].b;
    assert p.InBlock(b, p.First(b) + k);
    assert Link(s, p.First(b) + k) == s.link[p.First(b) + k];
    if k < p.m {
      BlockLeads(p, s, t, k + 1);
      assert BlockList(p, b)[k..][1..] == BlockList(p, b)[k + 1..];
    }
  }

  lemma BlockWins(p: Pool, s: State, t: nat, free: seq<int>, at: map<int, Place>)
    requires Inv(p, s, free, at) && t < |s.pcs| && s.pcs[t].BlockCas? && s.pcs[t].n == s.freelist
    ensures Inv(p, Step(p, s, t), BlockList(p, s.pcs[t].b) + free, Freed(at, t))
  {
    var b := s.pcs[t].b;
    var front := BlockList(p, b);
    assert Knows(p, s, s.pcs[t]);
    forall x | p.InBlock(b, x) ensures x in front && x in s.link {
      assert Holds(p, s.pcs[t], x);
      assert front[x - p.First(b)] == x;
    }
    BlockLeads(p, s, t, 0);
    assert front[0..] == front;
    assert front[0] == p.First(b);
    assert Step(p, s, t) == At(s.(freelist := Word(front[0], s.freelist.rfn + 1)), t, ReadHead);
    PushWins(p, s, t, ReadHead, front, free, at);
  }

  // ---- blocks --------------------------------------------------------------------------------------

  lemma {:induction false} Multiples(b: nat, c: nat, k: nat)
    requires b < c
    ensures b * k + k <= c * k
  {
    assert (c - 1) * k + k == c * k;
    if b + 1 < c {
      Multiples(b, c - 1, k);
    }
  }

  lemma BlocksInOrder(p: Pool, b: nat, c: nat)
    ensures b < c ==> p.First(b) + p.m < p.First(c)
  {
    if b < c {
      Multiples(b, c, p.m + 1);
    }
  }

  lemma BlocksDiffer(p: Pool, b: nat, c: nat, x: int)
    requires p.InBlock(b, x) && p.InBlock(c, x)
    ensures b == c
  {
    BlocksInOrder(p, b, c);
    BlocksInOrder(p, c, b);
  }

  function WithBlock(p: Pool, at: map<int, Place>, b: nat, t: nat): map<int, Place> {
    at + map x: int | p.First(b) <= x <= p.First(b) + p.m && p.InBlock(b, x) :: With(t)
  }

  lemma BlockIsNew(p: Pool, s: State, b: nat, t: nat, free: seq<int>, at: map<int, Place>)
    requires Placed(p, s, free, at) && b !in s.ba
    ensures forall x :: p.InBlock(b, x) ==> x !in at
    ensures forall x :: Installed(p, s.(ba := s.ba + {b}), x) <==> x in WithBlock(p, at, b, t)
  {
    forall x | p.InBlock(b, x) ensures x !in at {
      if x in at {
        assert Installed(p, s, x);
        var c :| c in s.ba && p.InBlock(c, x);
        BlocksDiffer(p, b, c, x);
      }
    }
    var s' := s.(ba := s.ba + {b});
    forall x ensures Installed(p, s', x) <==> x in WithBlock(p, at, b, t) {
      if Installed(p, s', x) {
        var c :| c in s'.ba && p.InBlock(c, x);
        assert c != b ==> Installed(p, s, x);
      }
      if x in at {
        assert Installed(p, s, x);
      }
    }
  }

  lemma InstalledPlaces(p: Pool, s: State, s': State, t: nat, b: nat, free: seq<int>, at: map<int, Place>)
    requires Placed(p, s, free, at) && t < |s.pcs| && s.pcs[t] == Scan(b) && b !in s.ba
    requires s' == At(s.(ba := s.ba + {b}, link := s.link + Fresh(p, b)), t, Count(b))
    ensures Placed(p, s', free, WithBlock(p, at, b, t))
  {
    var at' := WithBlock(p, at, b, t);
    BlockIsNew(p, s, b, t, free, at);
    forall x ensures Installed(p, s', x) <==> x in at' {
      assert Installed(p, s', x) <==> Installed(p, s.(ba := s.ba + {b}), x);
    }
    assert at'.Keys == s'.link.Keys;
    InstalledHands(p, s.pcs, t, b, at);
  }

  lemma InstalledHands(p: Pool, pcs: seq<Pc>, t: nat, b: nat, at: map<int, Place>)
    requires InHand(p, pcs, at) && t < |pcs| && pcs[t] == Scan(b)
    requires forall x :: p.InBlock(b, x) ==> x !in at
    ensures InHand(p, pcs[t := Count(b)], WithBlock(p, at, b, t))
  {
    var pcs', at' := pcs[t := Count(b)], WithBlock(p, at, b, t);
    forall u, x | 0 <= u < |pcs'| && Holds(p, pcs'[u], x) ensures x in at' && at'[x] == With(u) {
      if u != t {
        assert Holds(p, pcs[u], x);
      }
    }
  }

  /** A block goes to the thread whose compare-and-swap installed it; its nodes are new. */
  lemma Installs(p: Pool, s: State, t: nat, b: nat, free: seq<int>, at: map<int, Place>)
    requires Inv(p, s, free, at) && t < |s.pcs| && s.pcs[t] == Scan(b) && b < p.maxBlocks && b !in s.ba
    ensures Inv(p, Step(p, s, t), free, WithBlock(p, at, b, t))
  {
    InstalledPlaces(p, s, Step(p, s, t), t, b, free, at);
    BlockIsNew(p, s, b, t, free, at);
    OthersKnow(p, s, Step(p, s, t), t, free, at);
    InstalledList(p, s, t, b, free, at);
  }

  lemma InstalledList(p: Pool, s: State, t: nat, b: nat, free: seq<int>, at: map<int, Place>)
    requires Placed(p, s, free, at) && Follows(s.link, s.freelist.mi, free)
    requires forall x :: p.InBlock(b, x) ==> x !in at
    ensures Follows(s.link + Fresh(p, b), s.freelist.mi, free)
  {
    FollowsStays(s.link, s.link + Fresh(p, b), s.freelist.mi, free);
  }

  // ---- the calls -----------------------------------------------------------------------------------

  lemma CallsFree(p: Pool, s: State, t: nat, x: int, free: seq<int>, at: map<int, Place>)
    requires Inv(p, s, free, at) && Enabled(s, CallFree(t, x))
    ensures Inv(p, Do(p, s, CallFree(t, x)), free, at[x := With(t)])
  {
    var s' := Do(p, s, CallFree(t, x));
    OthersKnow(p, s, s', t, free, at);
    assert forall y :: Installed(p, s', y) <==> Installed(p, s, y);
  }

  lemma Writes(p: Pool, s: State, x: int, v: int, free: seq<int>, at: map<int, Place>)
    requires Inv(p, s, free, at) && x in s.owned
    ensures Inv(p, Do(p, s, OwnerWrites(x, v)), free, at)
  {
    var s' := Do(p, s, OwnerWrites(x, v));
    FollowsStays(s.link, s'.link, s.freelist.mi, free);
    HeadIsFree(p, s, free, at);
    forall u | 0 <= u < |s.pcs| ensures Knows(p, s', s'.pcs[u]) {
      assert Knows(p, s, s.pcs[u]);
      KnowsStays(p, s, s', s.pcs[u]);
    }
    assert forall y :: Installed(p, s', y) <==> Installed(p, s, y);
  }

  // ---- every step of every thread -------------------------------------------------------------------

  lemma ChainMoves(p: Pool, s: State, t: nat, free: seq<int>, at: map<int, Place>)
    requires Inv(p, s, free, at) && t < |s.pcs| && s.pcs[t].Chain?
    ensures Inv(p, Step(p, s, t), free, at)
  {
    var Chain(b, k) := s.pcs[t];
    var x := p.First(b) + k;
    var v, pc := if k < p.m then x + 1 else NNULL, if k < p.m then Chain(b, k + 1) else BlockRead(b);
    assert Knows(p, s, s.pcs[t]) && Holds(p, s.pcs[t], x);
    var s1 := s.(link := s.link[x := v]);
    forall y | p.First(b) <= y < p.First(b) + k ensures Link(s1, y) == y + 1 { assert Link(s, y) == y + 1; }
    assert Link(s1, x) == v;
    assert Knows(p, s1, pc);
    assert Step(p, s, t) == At(s.(link := s.link[x := v]), t, pc);
    WritesOwn(p, s, t, pc, x, v, free, at);
  }

  lemma BlockSetMoves(p: Pool, s: State, t: nat, free: seq<int>, at: map<int, Place>)
    requires Inv(p, s, free, at) && t < |s.pcs| && s.pcs[t].BlockSet?
    ensures Inv(p, Step(p, s, t), free, at)
  {
    var BlockSet(b, n) := s.pcs[t];
    var x := p.First(b) + p.m;
    assert Knows(p, s, s.pcs[t]) && Holds(p, s.pcs[t], x);
    assert Step(p, s, t) == At(s.(link := s.link[x := n.mi]), t, BlockCas(b, n));
    var s1 := s.(link := s.link[x := n.mi]);
    forall y | p.First(b) <= y < p.First(b) + p.m ensures Link(s1, y) == y + 1 { assert Link(s, y) == y + 1; }
    assert Link(s1, x) == n.mi;
    assert Knows(p, s1, BlockCas(b, n));
    WritesOwn(p, s, t, BlockCas(b, n), x, n.mi, free, at);
  }

  lemma CountMoves(p: Pool, s: State, t: nat, free: seq<int>, at: map<int, Place>)
    requires Inv(p, s, free, at) && t < |s.pcs| && s.pcs[t].Count?
    ensures Inv(p, Step(p, s, t), free, at)
  {
    var s1 := s.(curr := s.curr + 1);
    forall u | 0 <= u < |s.pcs| ensures Knows(p, s1, s1.pcs[u]) {
      assert Knows(p, s, s.pcs[u]);
      KnowsStays(p, s, s1, s.pcs[u]);
    }
    assert forall x :: Installed(p, s1, x) <==> Installed(p, s, x);
    OnlyMoves(p, s1, t, Chain(s.pcs[t].b, 0), free, at);
  }

  lemma HeadWasRead(p: Pool, s: State, free: seq<int>, at: map<int, Place>)
    requires Inv(p, s, free, at)
    ensures ReadBefore(p, s, s.freelist)
  {
    HeadIsFree(p, s, free, at);
    assert s.freelist.mi != NNULL ==> Installed(p, s, s.freelist.mi);
  }

  /** Each step of each thread keeps every node in one place. */
  lemma StepKeeps(p: Pool, s: State, t: nat, free: seq<int>, at: map<int, Place>)
    requires Inv(p, s, free, at) && t < |s.pcs|
    ensures InvSome(p, Step(p, s, t))
  {
    var s' := Step(p, s, t);
    assert Knows(p, s, s.pcs[t]);
    HeadWasRead(p, s, free, at);
    match s.pcs[t]
    case Idle =>
    case Check => OnlyMoves(p, s, t, s'.pcs[t], free, at);
    case ReadCurr => OnlyMoves(p, s, t, s'.pcs[t], free, at);
    case ReadHead => OnlyMoves(p, s, t, s'.pcs[t], free, at);
    case ReadLink(n) => OnlyMoves(p, s, t, s'.pcs[t], free, at);
    case CasPop(n, next) =>
      if s.freelist == n {
        PopWins(p, s, t, free, at);
      } else {
        OnlyMoves(p, s, t, Check, free, at);
      }
    case Scan(i) =>
      if i < p.maxBlocks && i !in s.ba {
        Installs(p, s, t, i, free, at);
      } else {
        OnlyMoves(p, s, t, s'.pcs[t], free, at);
      }
    case Count(b) => CountMoves(p, s, t, free, at);
    case Chain(b, k) => ChainMoves(p, s, t, free, at);
    case BlockRead(b) => OnlyMoves(p, s, t, s'.pcs[t], free, at);
    case BlockSet(b, n) => BlockSetMoves(p, s, t, free, at);
    case BlockCas(b, n) =>
      if s.freelist == n {
        BlockWins(p, s, t, free, at);
      } else {
        OnlyMoves(p, s, t, BlockRead(b), free, at);
      }
    case FreeRead(x) => OnlyMoves(p, s, t, s'.pcs[t], free, at);
    case FreeSet(x, n) => WritesOwn(p, s, t, FreeCas(x, n), x, n.mi, free, at);
    case FreeCas(x, n) =>
      if s.freelist == n {
        FreeWins(p, s, t, free, at);
      } else {
        OnlyMoves(p, s, t, FreeRead(x), free, at);
      }
  }

  lemma ActionKeeps(p: Pool, s: State, a: Action)
    requires InvSome(p, s) && Enabled(s, a)
    ensures InvSome(p, Do(p, s, a))
  {
    var free, at :| Inv(p, s, free, at);
    match a
    case Go(t) => StepKeeps(p, s, t, free, at);
    case CallNew(t) => OnlyMoves(p, s, t, Check, free, at);
    case CallFree(t, x) => CallsFree(p, s, t, x, free, at);
    case OwnerWrites(x, v) => Writes(p, s, x, v, free, at);
  }

  /** Where the nodes of the installed blocks are: on the list, owned, or with one thread; nowhere twice. */
  ghost predicate Conserved(p: Pool, s: State, free: seq<int>) {
    && Follows(s.link, s.freelist.mi, free) && Distinct(free)
    && (forall x {:trigger Installed(p, s, x)} :: Installed(p, s, x) <==>
       x in free || x in s.owned || InTransit(p, s, x))
    && (forall x :: x in free ==> x !in s.owned && !InTransit(p, s, x))
    && (forall x :: x in s.owned ==> !InTransit(p, s, x))
    && (forall t, u, x :: 0 <= t < |s.pcs| && 0 <= u < |s.pcs| && Holds(p, s.pcs[t], x) && Holds(p, s.pcs[u], x) ==>
       t == u)
  }

  ghost predicate InTransit(p: Pool, s: State, x: int) {
    exists t :: 0 <= t < |s.pcs| && Holds(p, s.pcs[t], x)
  }

  lemma InvConserves(p: Pool, s: State, free: seq<int>, at: map<int, Place>)
    requires Inv(p, s, free, at)
    ensures Conserved(p, s, free)
  {
    forall x ensures x in at <==> x in free || x in s.owned || InTransit(p, s, x) {
      if x in at && at[x].With? {
        assert Holds(p, s.pcs[at[x].t], x);
      }
    }
    forall t, u, x | 0 <= t < |s.pcs| && 0 <= u < |s.pcs| && Holds(p, s.pcs[t], x) && Holds(p, s.pcs[u], x)
        ensures t == u {
      assert at[x] == With(t);
    }
  }

  lemma {:induction false} RunKeeps(p: Pool, run: seq<State>, actions: seq<Action>, threads: nat, i: nat)
    requires IsRun(p, run, actions, threads) && i < |run|
    ensures InvSome(p, run[i])
  {
    if i == 0 {
      assert forall x :: !Installed(p, run[0], x);
      assert Inv(p, run[0], [], map[]);
    } else {
      RunKeeps(p, run, actions, threads, i - 1);
      assert run[i - 1 + 1] == Do(p, run[i - 1], actions[i - 1]);
      ActionKeeps(p, run[i - 1], actions[i - 1]);
    }
  }

  /** In every state of every run, free, owned and handled nodes are exactly those of the installed blocks. */
  lemma NodesAreConserved(p: Pool, run: seq<State>, actions: seq<Action>, threads: nat, i: nat) returns (free: seq<int>)
    requires IsRun(p, run, actions, threads) && i < |run|
    ensures Conserved(p, run[i], free)
  {
    RunKeeps(p, run, actions, threads, i);
    var f, at :| Inv(p, run[i], f, at);
    InvConserves(p, run[i], f, at);
    free := f;
  }

  /**
    The node that new_node returns is installed and was neither owned nor in another thread's hands, stale links or not.
   */
  lemma NewNodeIsNobodys(p: Pool, run: seq<State>, actions: seq<Action>, threads: nat, i: nat, t: nat)
    requires IsRun(p, run, actions, threads) && i < |actions| && actions[i] == Go(t)
    requires run[i].pcs[t].CasPop? && run[i].freelist == run[i].pcs[t].n
    ensures var x := run[i].pcs[t].n.mi;
            Installed(p, run[i], x) && x !in run[i].owned && !InTransit(p, run[i], x)
                && run[i + 1].owned == run[i].owned + {x}
  {
    var free := NodesAreConserved(p, run, actions, threads, i);
    RunKeeps(p, run, actions, threads, i);
    var f, at :| Inv(p, run[i], f, at);
    PopWins(p, run[i], t, f, at);
    InvConserves(p, run[i], f, at);
    assert f[0] in f;
    assert Knows(p, run[i], run[i].pcs[t]);
  }

  // ---- an empty list and a full pool ------------------------------------------------------------------

  /** The head says NNULL exactly if the list is empty, as long as no node has that number. */
  lemma NullMeansEmpty(p: Pool, s: State, free: seq<int>, at: map<int, Place>)
    requires Inv(p, s, free, at) && p.NullIsNoNode()
    ensures s.freelist.mi == NNULL <==> free == []
  {
    HeadIsFree(p, s, free, at);
    if free != [] {
      assert free[0] in free;
      assert Installed(p, s, free[0]);
      var b :| b in s.ba && p.InBlock(b, free[0]);
      BlocksInOrder(p, b, p.maxBlocks);
    }
  }

  function Counting(pcs: seq<Pc>): nat {
    if |pcs| == 0 then 0 else Counting(pcs[..|pcs| - 1]) + if pcs[|pcs| - 1].Count? then 1 else 0
  }

  lemma {:induction false} CountingAt(pcs: seq<Pc>, t: nat, pc: Pc)
    requires t < |pcs|
    ensures Counting(pcs[t := pc]) - (if pc.Count? then 1 else 0) == Counting(pcs) - (if pcs[t].Count? then 1 else 0)
  {
    var n := |pcs| - 1;
    if t < n {
      assert pcs[t := pc][..n] == pcs[..n][t := pc];
      CountingAt(pcs[..n], t, pc);
    } else {
      assert pcs[t := pc][..n] == pcs[..n];
    }
  }

  /** The blocks are installed from 0 up without gaps, and curr lags behind by the threads about to count theirs. */
  ghost predicate NoGaps(p: Pool, s: State, n: nat) {
    && n <= p.maxBlocks && (forall b: nat :: b in s.ba <==> b < n)
    && s.curr + Counting(s.pcs) == n
    && (forall t :: 0 <= t < |s.pcs| && s.pcs[t].Scan? ==> s.pcs[t].i <= n)
  }

  lemma NoGapsKept(p: Pool, s: State, a: Action, n: nat) returns (n': nat)
    requires NoGaps(p, s, n) && Enabled(s, a)
    ensures NoGaps(p, Do(p, s, a), n')
  {
    n' := n;
    match a
    case Go(t) =>
      var s' := Step(p, s, t);
      CountingAt(s.pcs, t, s'.pcs[t]);
      if s.pcs[t].Scan? && s.pcs[t].i < p.maxBlocks && s.pcs[t].i !in s.ba {
        n' := n + 1;
      }
      assert s'.pcs == s.pcs[t := s'.pcs[t]];
    case CallNew(t) => CountingAt(s.pcs, t, Check);
    case CallFree(t, x) => CountingAt(s.pcs, t, FreeRead(x));
    case OwnerWrites(x, v) =>
  }

  lemma {:induction false} NoneCounts(n: nat)
    ensures Counting(seq(n, _ => Idle)) == 0
  {
    if n > 0 {
      assert seq(n, _ => Idle)[..n - 1] == seq(n - 1, _ => Idle);
      NoneCounts(n - 1);
    }
  }

  lemma {:induction false} RunHasNoGaps(p: Pool, run: seq<State>, actions: seq<Action>, threads: nat, i: nat)
      returns (n: nat)
    requires IsRun(p, run, actions, threads) && i < |run|
    ensures NoGaps(p, run[i], n)
  {
    if i == 0 {
      NoneCounts(threads);
      n := 0;
    } else {
      n := RunHasNoGaps(p, run, actions, threads, i - 1);
      assert run[i - 1 + 1] == Do(p, run[i - 1], actions[i - 1]);
      n := NoGapsKept(p, run[i - 1], actions[i - 1], n);
    }
  }

  // ---- how the calls begin and end ---------------------------------------------------------------------

  /** The thread is in new_node, new_mem_block included. */
  predicate InNew(pc: Pc) {
    match pc
    case Idle => false
    case FreeRead(_) => false
    case FreeSet(_, _) => false
    case FreeCas(_, _) => false
    case _ => true
  }

  /** The thread is in free_node with node x. */
  predicate InFree(pc: Pc, x: int) {
    match pc
    case FreeRead(y) => y == x
    case FreeSet(y, _) => y == x
    case FreeCas(y, _) => y == x
    case _ => false
  }

  /** The thread is in new_mem_block. */
  predicate InNewBlock(pc: Pc) { InNew(pc) && pc != Check && pc != ReadHead && !pc.ReadLink? && !pc.CasPop? }

  /** At some moment since its last call of new_node the head read NNULL. */
  ghost predicate WasEmpty(run: seq<State>, actions: seq<Action>, i: nat, t: nat)
    requires i <= |actions| < |run|
  {
    run[i].freelist.mi == NNULL || (i > 0 && actions[i - 1] != CallNew(t) && WasEmpty(run, actions, i - 1, t))
  }

  // What one step of a thread in new_node does to the pool, but for new blocks.
  lemma StepInNew(p: Pool, s: State, t: nat, n: nat)
    requires t < |s.pcs| && InNew(s.pcs[t]) && NoGaps(p, s, n)
    ensures var s' := Step(p, s, t);
      if InNew(s'.pcs[t]) then s'.owned == s.owned
      else s'.pcs[t] == Idle &&
           if s.pcs[t].CasPop? then s.pcs[t].n == s.freelist
           else s' == At(s, t, Idle) && s.pcs[t].Scan? && n == p.maxBlocks
  {
  }

  // One step or call comes to new_mem_block.
  lemma {:induction false} IntoNewBlock(p: Pool, s: State, a: Action, t: nat)
    requires Enabled(s, a) && t < |s.pcs| && InNewBlock(Do(p, s, a).pcs[t])
    ensures a != CallNew(t) && (InNewBlock(s.pcs[t]) || Do(p, s, a).freelist.mi == NNULL)
  {
  }

  /** A thread is in new_mem_block only if the list was empty at some moment of its call. */
  lemma {:induction false} BlocksOnlyWhenEmpty(p: Pool, run: seq<State>, actions: seq<Action>, threads: nat, i: nat,
                                               t: nat)
    requires IsRun(p, run, actions, threads) && i < |run| && t < |run[i].pcs| && InNewBlock(run[i].pcs[t])
    ensures WasEmpty(run, actions, i, t)
  {
    if i > 0 {
      assert run[i - 1 + 1] == Do(p, run[i - 1], actions[i - 1]);
      IntoNewBlock(p, run[i - 1], actions[i - 1], t);
      if InNewBlock(run[i - 1].pcs[t]) {
        BlocksOnlyWhenEmpty(p, run, actions, threads, i - 1, t);
      }
    }
  }

  // The last step of new_node.
  lemma StepEndsNew(p: Pool, s: State, t: nat, n: nat, free: seq<int>, at: map<int, Place>)
    requires Inv(p, s, free, at) && t < |s.pcs| && InNew(s.pcs[t]) && NoGaps(p, s, n) && Step(p, s, t).pcs[t] == Idle
    ensures var s' := Step(p, s, t);
      if s'.owned != s.owned then
        && free != [] && free[0] !in s.owned && s'.owned == s.owned + {free[0]} && Conserved(p, s', free[1..])
      else
        s' == At(s, t, Idle) && InNewBlock(s.pcs[t]) && n == p.maxBlocks && Conserved(p, s', free)
  {
    StepInNew(p, s, t, n);
    if s.pcs[t].CasPop? {
      PopWins(p, s, t, free, at);
      InvConserves(p, Step(p, s, t), free[1..], at[free[0] := Owned]);
    } else {
      OnlyMoves(p, s, t, Idle, free, at);
      InvConserves(p, Step(p, s, t), free, at);
    }
  }

  /**
   * new_node goes on until it has taken the first node of the list, or gives up for want of memory: then every block
   * of the pool is installed, nothing has changed, and the list was empty at some moment of the call.
   */
  lemma NewNodeEnds(p: Pool, run: seq<State>, actions: seq<Action>, threads: nat, i: nat, t: nat)
      returns (free: seq<int>, free': seq<int>)
    requires IsRun(p, run, actions, threads) && i < |actions| && t < |run[i].pcs|
    requires actions[i] == CallNew(t) || (actions[i] == Go(t) && InNew(run[i].pcs[t]))
    ensures Conserved(p, run[i], free) && Conserved(p, run[i + 1], free') && |run[i + 1].pcs| == |run[i].pcs|
    ensures actions[i] == CallNew(t) ==> InNew(run[i + 1].pcs[t])
    ensures InNew(run[i + 1].pcs[t]) ==> run[i + 1].owned == run[i].owned
    ensures InNew(run[i + 1].pcs[t]) || run[i + 1].pcs[t] == Idle
    ensures run[i + 1].pcs[t] == Idle && run[i + 1].owned != run[i].owned ==>
      free != [] && free' == free[1..] && free[0] !in run[i].owned && run[i + 1].owned == run[i].owned + {free[0]}
    ensures run[i + 1].pcs[t] == Idle && run[i + 1].owned == run[i].owned ==>
      && free' == free && run[i + 1] == At(run[i], t, Idle)
      && (forall b: nat :: b in run[i].ba <==> b < p.maxBlocks) && WasEmpty(run, actions, i, t)
  {
    assert run[i + 1] == Do(p, run[i], actions[i]);
    RunKeeps(p, run, actions, threads, i);
    var at;
    free, at :| Inv(p, run[i], free, at);
    InvConserves(p, run[i], free, at);
    if run[i + 1].pcs[t] == Idle {
      var n := RunHasNoGaps(p, run, actions, threads, i);
      StepEndsNew(p, run[i], t, n, free, at);
      if run[i + 1].owned != run[i].owned {
        free' := free[1..];
      } else {
        BlocksOnlyWhenEmpty(p, run, actions, threads, i, t);
        free' := free;
      }
    } else {
      free' := NodesAreConserved(p, run, actions, threads, i + 1);
      if actions[i] == Go(t) {
        var n := RunHasNoGaps(p, run, actions, threads, i);
        StepInNew(p, run[i], t, n);
      }
    }
  }

  lemma StepInFree(p: Pool, s: State, t: nat, x: int)
    requires t < |s.pcs| && InFree(s.pcs[t], x)
    ensures Step(p, s, t).owned == s.owned
    ensures InFree(Step(p, s, t).pcs[t], x) || (s.pcs[t].FreeCas? && s.pcs[t].x == x && s.pcs[t].n == s.freelist)
  {
  }

  /** free_node goes on until the node it was given is the first of the list. */
  lemma FreeNodeEnds(p: Pool, run: seq<State>, actions: seq<Action>, threads: nat, i: nat, t: nat, x: int)
      returns (free: seq<int>, free': seq<int>)
    requires IsRun(p, run, actions, threads) && i < |actions| && t < |run[i].pcs|
    requires actions[i] == CallFree(t, x) || (actions[i] == Go(t) && InFree(run[i].pcs[t], x))
    ensures Conserved(p, run[i], free) && Conserved(p, run[i + 1], free') && |run[i + 1].pcs| == |run[i].pcs|
    ensures actions[i] == CallFree(t, x) ==> InFree(run[i + 1].pcs[t], x) && run[i + 1].owned == run[i].owned - {x}
    ensures actions[i] == Go(t) ==> run[i + 1].owned == run[i].owned
    ensures !InFree(run[i + 1].pcs[t], x) ==> run[i + 1].pcs[t] == Idle && free' == [x] + free
  {
    assert run[i + 1] == Do(p, run[i], actions[i]);
    RunKeeps(p, run, actions, threads, i);
    var at;
    free, at :| Inv(p, run[i], free, at);
    InvConserves(p, run[i], free, at);
    if actions[i] == Go(t) {
      StepInFree(p, run[i], t, x);
    }
    if InFree(run[i + 1].pcs[t], x) {
      free' := NodesAreConserved(p, run, actions, threads, i + 1);
    } else {
      FreeWins(p, run[i], t, free, at);
      free' := [x] + free;
      InvConserves(p, run[i + 1], free', Freed(at, t));
    }
  }

  // ---- progress ----------------------------------------------------------------------------------------------

  /** The thread has read a head that is not the head any more. */
  predicate Stale(s: State, pc: Pc) {
    match pc
    case ReadLink(n) => n != s.freelist
    case CasPop(n, _) => n != s.freelist
    case BlockSet(_, n) => n != s.freelist
    case BlockCas(_, n) => n != s.freelist
    case FreeSet(_, n) => n != s.freelist
    case FreeCas(_, n) => n != s.freelist
    case _ => false
  }

  /** How many steps the thread has to make at most if the head stays as it is but for these steps. */
  function StepsLeft(p: Pool, s: State, pc: Pc): nat {
    var blocks := p.m + p.maxBlocks;
    match pc
    case Idle => 0
    case FreeCas(_, _) => 1
    case FreeSet(_, _) => 2
    case FreeRead(_) => 3
    case CasPop(_, _) => 1
    case ReadLink(_) => 2
    case ReadHead => if s.freelist.mi != NNULL then 3 else 13 + blocks
    case Check => if s.freelist.mi != NNULL then 4 else 12 + blocks
    case BlockCas(_, _) => 4
    case BlockSet(_, _) => 5
    case BlockRead(_) => 6
    case Chain(_, k) => if k <= p.m then 7 + p.m - k else 0
    case Count(_) => 8 + p.m
    case Scan(i) => if i < p.maxBlocks then 9 + blocks - i else 9
    case ReadCurr => 10 + blocks
  }

  lemma StepNearer(p: Pool, s: State, t: nat)
    requires t < |s.pcs| && s.pcs[t] != Idle && !Stale(s, s.pcs[t]) && Knows(p, s, s.pcs[t])
    requires s.pcs[t].BlockCas? ==> p.First(s.pcs[t].b) != NNULL
    ensures StepsLeft(p, Step(p, s, t), Step(p, s, t).pcs[t]) < StepsLeft(p, s, s.pcs[t])
  {
  }

  lemma BlockIsNotNull(p: Pool, s: State, t: nat, free: seq<int>, at: map<int, Place>)
    requires Inv(p, s, free, at) && p.NullIsNoNode() && t < |s.pcs| && s.pcs[t].BlockCas?
    ensures p.First(s.pcs[t].b) != NNULL
  {
    var x := p.First(s.pcs[t].b);
    assert Holds(p, s.pcs[t], x);
    assert Installed(p, s, x);
    var c :| c in s.ba && p.InBlock(c, x);
    BlocksInOrder(p, c, p.maxBlocks);
  }

  lemma StaleIsOlder(p: Pool, s: State, pc: Pc)
    requires Knows(p, s, pc) && Stale(s, pc)
    ensures pc.n.rfn < s.freelist.rfn
  {
  }

  /**
   * No thread is held up but by the success of another one: each step brings it nearer to the end of its call, unless
   * the head was changed after it read it, and then the tag says so.
   */
  lemma HeldUpOnlyBySuccess(p: Pool, run: seq<State>, actions: seq<Action>, threads: nat, i: nat, t: nat)
    requires IsRun(p, run, actions, threads) && i < |actions| && p.NullIsNoNode()
    requires actions[i] == Go(t) && t < |run[i].pcs| && run[i].pcs[t] != Idle
    ensures |run[i + 1].pcs| == |run[i].pcs|
    ensures StepsLeft(p, run[i + 1], run[i + 1].pcs[t]) < StepsLeft(p, run[i], run[i].pcs[t])
            || Stale(run[i], run[i].pcs[t])
    ensures Stale(run[i], run[i].pcs[t]) ==> run[i].pcs[t].n.rfn < run[i].freelist.rfn
  {
    assert run[i + 1] == Do(p, run[i], actions[i]);
    RunKeeps(p, run, actions, threads, i);
    var free, at :| Inv(p, run[i], free, at);
    assert Knows(p, run[i], run[i].pcs[t]);
    if Stale(run[i], run[i].pcs[t]) {
      StaleIsOlder(p, run[i], run[i].pcs[t]);
    } else {
      if run[i].pcs[t].BlockCas? {
        BlockIsNotNull(p, run[i], t, free, at);
      }
      StepNearer(p, run[i], t);
    }
  }

  /** How many of the first i steps have put nodes on the list or taken one off. */
  ghost function Successes(run: seq<State>, i: nat): nat
    requires i < |run|
  {
    if i == 0 then 0 else Successes(run, i - 1) + if run[i].freelist != run[i - 1].freelist then 1 else 0
  }

  /** The tag counts the changes of the list. */
  lemma {:induction false} TagCounts(p: Pool, run: seq<State>, actions: seq<Action>, threads: nat, i: nat)
    requires IsRun(p, run, actions, threads) && i < |run|
    ensures run[i].freelist.rfn == Successes(run, i)
  {
    if i > 0 {
      TagCounts(p, run, actions, threads, i - 1);
      assert run[i - 1 + 1] == Do(p, run[i - 1], actions[i - 1]);
    }
  }

  // ---- the sizes that create_mem_pool chooses ------------------------------------------------------------

  lemma Pow2Of31()
    ensures Pow2(31) == 0x8000_0000 && Pow2(32) == 0x1_0000_0000 && Pow2(16) == 0x1_0000
  {
    Pow2Word();
    assert Pow2(8) == 0x100;
    Pow2Sum(8, 8);
    assert Pow2(32) == 2 * Pow2(31);
  }

  // The number of nodes is a power of two, at least 2^pwr2 and no more than that where it exceeds 2^16.
  lemma PoolSizes(pwr2: nat, node: nat, block: nat)
    requires pwr2 <= 32 && 5 <= node <= 12 && block == (if pwr2 + node <= 9 + 12 then 12 else pwr2 + node - 9)
    ensures Pow2(9) * Pow2(block - node) >= Pow2(pwr2) && Pow2(block - node) >= 1
    ensures if pwr2 == 32 then Pow2(9) * Pow2(block - node) > NNULL else Pow2(9) * Pow2(block - node) <= NNULL
  {
    var e := 9 + (block - node);
    Pow2Sum(9, block - node);
    if pwr2 < e {
      Pow2Less(pwr2, e);
    }
    Pow2Of31();
    if e < 31 {
      Pow2Less(e, 31);
    }
  }

  /** The pool of 2^9 blocks for nodes of 2^node bytes (32 to 4096); pwr2 as the search loop finds it. */
  method CreateMemPool(maxNodes: nat, node: nat) returns (p: Pool)
    requires maxNodes <= Pow2(31) && 5 <= node <= 12
    ensures p.maxBlocks == Pow2(9) && maxNodes <= p.First(p.maxBlocks)
    ensures p.NullIsNoNode() <==> maxNodes >= 2
  {
    var pwr2 := 0;
    while Pow2(pwr2) < maxNodes
      invariant pwr2 <= 31
      invariant pwr2 > 0 ==> maxNodes >= 2
      decreases 31 - pwr2
    {
      if pwr2 == 31 {
        assert false;
      }
      pwr2 := pwr2 + 1;
    }
    if pwr2 == 0 || pwr2 > 32 {
      pwr2 := 32;
      Pow2Of31();
    }
    var total := pwr2 + node;
    var block := if total <= 9 + 12 then 12 else total - 9;
    PoolSizes(pwr2, node, block);
    p := Pool(Pow2(9), Pow2(block - node) - 1);
  }
}
