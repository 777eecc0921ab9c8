/**
  The hash table of lib/atomic_hash/src/atomic_hash.c as one thread sees it, with no time to live and the default hooks.
 */
module AtomicHash {
  import FreeList
  import opened Words

  type Nid = int
  type Data = int
  const NNULL: Nid := FreeList.NNULL
  const MINTAB := 64
  const NSEAT := 32

  /** A 128-bit hash: the four words of which x and y are the lower and the upper two. */
  datatype Hv = Hv(d0: ub4, d1: ub4, d2: ub4, d3: ub4) {
    function X(): nat { d0 + WORD * d1 }
    function Y(): nat { d2 + WORD * d3 }
  }

  lemma SameHalves(v: Hv, w: Hv)
    requires v.X() == w.X() && v.Y() == w.Y()
    ensures v == w
  {
  }

  /** A node: the two halves of its hash, the lower of which is 0 while a thread holds the node, and the data. */
  datatype Node = Node(x: nat, y: nat, data: Data) {
    /**
      The node was added for v. If the upper half of v is zero, a thread that held it may have left the lower half at
      zero.
     */
    predicate Keeps(v: Hv) {
      y == v.Y() && (x == v.X() || (v.Y() == 0 && x == 0))
    }
  }
  const NO_NODE := Node(0, 0, 0)

  /** A place for a node number: table 0 or 1, or the overflow array 2. */
  datatype Seat = Seat(t: nat, i: nat)

  type Tables = seq<seq<Nid>>

  ghost predicate Shape(tabs: Tables) {
    |tabs| == 3 && |tabs[0]| > 0 && |tabs[1]| > 0 && |tabs[2]| == MINTAB
  }

  predicate IsSeat(tabs: Tables, s: Seat) {
    s.t < |tabs| && s.i < |tabs[s.t]|
  }

  function At(tabs: Tables, s: Seat): Nid
    requires IsSeat(tabs, s)
  {
    tabs[s.t][s.i]
  }

  function Put(tabs: Tables, s: Seat, n: Nid): Tables
    requires IsSeat(tabs, s)
  {
    tabs[s.t := tabs[s.t][s.i := n]]
  }

  /** collect_hash_pos for one table: positions of 32-bit sums of the words; several may coincide. */
  function Positions(d: Hv, t: nat, nb: nat): (r: seq<Seat>)
    requires nb > 0
    ensures |r| == NSEAT / 2 && forall k :: 0 <= k < |r| ==> r[k].t == t && r[k].i < nb
  {
    [Seat(t, d.d0 % nb), Seat(t, d.d1 % nb), Seat(t, d.d2 % nb), Seat(t, d.d3 % nb)]
    + Cluster(d, t, nb, 1) + Cluster(d, t, nb, 2) + Cluster(d, t, nb, 3)
  }

  function Cluster(d: Hv, t: nat, nb: nat, j: nat): (r: seq<Seat>)
    requires nb > 0
    ensures |r| == 4 && forall k :: 0 <= k < |r| ==> r[k].t == t && r[k].i < nb
  {
    [Seat(t, Sum(d.d3, j, d.d0) % nb), Seat(t, Sum(d.d0, j, d.d1) % nb),
     Seat(t, Sum(d.d1, j, d.d2) % nb), Seat(t, Sum(d.d2, j, d.d3) % nb)]
  }

  function Sum(a: nat, j: nat, b: nat): nat { (a + j * b) % WORD }

  /** The seats of a hash, in the order in which they are tried. */
  function Seats(d: Hv, nb0: nat, nb1: nat): (r: seq<Seat>)
    requires nb0 > 0 && nb1 > 0
    ensures |r| == NSEAT && forall k :: 0 <= k < |r| ==> r[k].t < 2 && r[k].i < (if r[k].t == 0 then nb0 else nb1)
  {
    Positions(d, 0, nb0) + Positions(d, 1, nb1)
  }

  function WordOf(d: Hv, k: nat): ub4 {
    if k % 4 == 0 then d.d0 else if k % 4 == 1 then d.d1 else if k % 4 == 2 then d.d2 else d.d3
  }

  /** The 32-bit sum of the word before word k and j times word k, or word k itself if j is 0. */
  function Spread(d: Hv, j: nat, k: nat): nat {
    if j == 0 then WordOf(d, k) else Sum(WordOf(d, k + 3), j, WordOf(d, k))
  }

  lemma InParts<T>(a: seq<T>, b: seq<T>, c: seq<T>, d: seq<T>, j: nat, k: nat)
    requires |a| == |b| == |c| == |d| == 4 && j < 4 && k < 4
    ensures (a + b + c + d)[4 * j + k] == (if j == 0 then a else if j == 1 then b else if j == 2 then c else d)[k]
  {
  }

  lemma ClusterAt(d: Hv, t: nat, nb: nat, j: nat, k: nat)
    requires nb > 0 && 0 < j && k < 4
    ensures Cluster(d, t, nb, j)[k] == Seat(t, Spread(d, j, k) % nb)
  {
    if k == 0 {
      assert Cluster(d, t, nb, j)[0] == Seat(t, Spread(d, j, 0) % nb);
    } else if k == 1 {
      assert Cluster(d, t, nb, j)[1] == Seat(t, Spread(d, j, 1) % nb);
    } else if k == 2 {
      assert Cluster(d, t, nb, j)[2] == Seat(t, Spread(d, j, 2) % nb);
    } else {
      assert Cluster(d, t, nb, j)[3] == Seat(t, Spread(d, j, 3) % nb);
    }
  }

  lemma SpreadAt(d: Hv, t: nat, nb: nat, j: nat, k: nat)
    requires nb > 0 && j < 4 && k < 4
    ensures Positions(d, t, nb)[4 * j + k] == Seat(t, Spread(d, j, k) % nb)
  {
    var words := [Seat(t, d.d0 % nb), Seat(t, d.d1 % nb), Seat(t, d.d2 % nb), Seat(t, d.d3 % nb)];
    InParts(words, Cluster(d, t, nb, 1), Cluster(d, t, nb, 2), Cluster(d, t, nb, 3), j, k);
    if j > 0 {
      ClusterAt(d, t, nb, j, k);
    } else {
      assert words[k] == Seat(t, WordOf(d, k) % nb);
    }
  }

  /** Which seats belong to a hash, and in which order they are tried: tables, then clusters, then words. */
  lemma SeatAt(d: Hv, nb0: nat, nb1: nat, t: nat, j: nat, k: nat)
    requires nb0 > 0 && nb1 > 0 && t < 2 && j < 4 && k < 4
    ensures Seats(d, nb0, nb1)[16 * t + 4 * j + k] == Seat(t, Spread(d, j, k) % if t == 0 then nb0 else nb1)
  {
    SpreadAt(d, t, if t == 0 then nb0 else nb1, j, k);
  }

  predicate IsSpread(d: Hv, i: nat, nb: nat)
    requires nb > 0
  {
    exists j, k :: 0 <= j < 4 && 0 <= k < 4 && i == Spread(d, j, k) % nb
  }

  /** A seat belongs to a hash exactly if its position is one of the sixteen spreads modulo the size of its table. */
  lemma SeatsAre(d: Hv, nb0: nat, nb1: nat, s: Seat)
    requires nb0 > 0 && nb1 > 0
    ensures s in Seats(d, nb0, nb1) <==> s.t < 2 && IsSpread(d, s.i, if s.t == 0 then nb0 else nb1)
  {
    if s in Seats(d, nb0, nb1) {
      var n :| 0 <= n < NSEAT && Seats(d, nb0, nb1)[n] == s;
      SeatNumber(n);
      SeatAt(d, nb0, nb1, n / 16, n % 16 / 4, n % 4);
    }
    if s.t < 2 {
      var nb := if s.t == 0 then nb0 else nb1;
      if j, k :| 0 <= j < 4 && 0 <= k < 4 && s.i == Spread(d, j, k) % nb {
        SeatAt(d, nb0, nb1, s.t, j, k);
      }
    }
  }

  lemma SeatNumber(n: nat)
    requires n < NSEAT
    ensures n / 16 < 2 && n % 16 / 4 < 4 && n % 4 < 4 && n == 16 * (n / 16) + 4 * (n % 16 / 4) + n % 4
  {
  }

  ghost predicate AllSeats(tabs: Tables, a: seq<Seat>) {
    |tabs| == 3 && |a| == NSEAT && forall k :: 0 <= k < |a| ==> a[k].t < 2 && a[k].i < |tabs[a[k].t]|
  }

  predicate MayHold(tabs: Tables, v: Hv, s: Seat)
    requires |tabs| == 3 && |tabs[0]| > 0 && |tabs[1]| > 0
  {
    s.t == 2 || s in Seats(v, |tabs[0]|, |tabs[1]|)
  }

  // ---- the invariant -----------------------------------------------------------------------------------

  ghost predicate Taken(tabs: Tables, s: Seat) {
    IsSeat(tabs, s) && At(tabs, s) != NNULL
  }

  ghost predicate InSeat(tabs: Tables, n: Nid) {
    exists s :: Taken(tabs, s) && At(tabs, s) == n
  }

  /**
    The node in a seat was added for a hash that may be in this seat; if its upper half is not zero, it is in the map.
   */
  ghost predicate SeatOk(tabs: Tables, nodes: map<Nid, Node>, added: map<Nid, Hv>, m: map<Hv, Data>, s: Seat)
    requires Shape(tabs)
  {
    Taken(tabs, s) ==>
      var n := At(tabs, s);
      && n in nodes && n in added && nodes[n].Keeps(added[n]) && MayHold(tabs, added[n], s)
      && (added[n].Y() != 0 ==> added[n] in m && m[added[n]] == nodes[n].data)
  }

  /** Different seats have different nodes, and the nodes different hashes if the upper half is not zero. */
  ghost predicate Apart(tabs: Tables, added: map<Nid, Hv>, s: Seat, u: Seat) {
    Taken(tabs, s) && Taken(tabs, u) && s != u ==>
      && At(tabs, s) != At(tabs, u)
      && (At(tabs, s) in added && At(tabs, u) in added && added[At(tabs, s)] == added[At(tabs, u)] ==>
         added[At(tabs, s)].Y() == 0)
  }

  /** The node in seat s was added for v. */
  ghost predicate HoldsHash(tabs: Tables, added: map<Nid, Hv>, s: Seat, v: Hv) {
    Taken(tabs, s) && At(tabs, s) in added && added[At(tabs, s)] == v
  }

  ghost predicate Stored(tabs: Tables, added: map<Nid, Hv>, v: Hv) {
    v.Y() != 0 && exists s :: HoldsHash(tabs, added, s, v)
  }

  /**
    The seats hold the nodes that were added, and store exactly the map m of the hashes whose upper half is
    not zero, each hash once. What was added for other hashes is in seats too, any number of times.
   */
  ghost predicate Stores(tabs: Tables, nodes: map<Nid, Node>, added: map<Nid, Hv>, m: map<Hv, Data>) {
    && Shape(tabs)
    && (forall s {:trigger SeatOk(tabs, nodes, added, m, s)} :: SeatOk(tabs, nodes, added, m, s))
    && (forall s, u {:trigger Apart(tabs, added, s, u)} :: Apart(tabs, added, s, u))
    && (forall v {:trigger Stored(tabs, added, v)} :: v in m ==> Stored(tabs, added, v))
    && (forall n {:trigger InSeat(tabs, n)} :: n in added ==> InSeat(tabs, n))
  }

  ghost predicate Numbered(nodes: map<Nid, Node>, bound: int) {
    forall n {:trigger n in nodes} :: n in nodes <==> 0 <= n < bound
  }

  lemma SameNumbers(nodes: map<Nid, Node>, n: Nid, p: Node, bound: int)
    requires Numbered(nodes, bound) && n in nodes
    ensures Numbered(nodes[n := p], bound)
  {
  }

  /** A node number is on the free list, in a seat, or in hand: in one of them only. */
  ghost predicate Pooled(tabs: Tables, nodes: map<Nid, Node>, free: seq<Nid>, hand: set<Nid>) {
    && (forall i, j :: 0 <= i < j < |free| ==> free[i] != free[j])
    && (forall n {:trigger n in free} :: n in free ==> n in nodes && n != NNULL && n !in hand && !InSeat(tabs, n))
    && (forall n {:trigger n in hand} :: n in hand ==> n in nodes && n != NNULL && !InSeat(tabs, n))
    && (forall n {:trigger InSeat(tabs, n)} :: n in nodes && n !in free && n !in hand ==> InSeat(tabs, n))
  }

  function Count(b: seq<Nid>): nat {
    if |b| == 0 then 0 else Count(b[..|b| - 1]) + if b[|b| - 1] != NNULL then 1 else 0
  }

  lemma {:induction false} CountAt(b: seq<Nid>, i: nat, n: Nid)
    requires i < |b|
    ensures Count(b[i := n]) + (if b[i] != NNULL then 1 else 0) == Count(b) + if n != NNULL then 1 else 0
  {
    var k := |b| - 1;
    if i < k {
      assert b[i := n][..k] == b[..k][i := n];
      CountAt(b[..k], i, n);
    } else {
      assert b[i := n][..k] == b[..k];
    }
  }

  ghost predicate CountsFit(tabs: Tables, ncur: seq<nat>) {
    |tabs| == 3 && |ncur| == 3 && forall t :: 0 <= t < 3 ==> ncur[t] == Count(tabs[t])
  }

  lemma CountsAfter(tabs: Tables, ncur: seq<nat>, s: Seat, n: Nid)
    requires CountsFit(tabs, ncur) && IsSeat(tabs, s)
    ensures At(tabs, s) == NNULL && n != NNULL ==> CountsFit(Put(tabs, s, n), ncur[s.t := ncur[s.t] + 1])
    ensures At(tabs, s) != NNULL && n == NNULL ==>
            ncur[s.t] > 0 && CountsFit(Put(tabs, s, n), ncur[s.t := ncur[s.t] - 1])
  {
    CountAt(tabs[s.t], s.i, n);
  }

  /** A table is full exactly if each of its seats is taken. */
  lemma {:induction false} CountFull(b: seq<Nid>)
    ensures Count(b) <= |b|
    ensures Count(b) == |b| <==> forall i :: 0 <= i < |b| ==> b[i] != NNULL
  {
    if |b| > 0 {
      var k := |b| - 1;
      CountFull(b[..k]);
      assert forall i :: 0 <= i < k ==> b[..k][i] == b[i];
    }
  }

  lemma {:induction false} CountPrefix(b: seq<Nid>, j: nat)
    requires j <= |b|
    ensures Count(b[..j]) <= Count(b)
    ensures Count(b[..j]) == Count(b) ==> forall k :: j <= k < |b| ==> b[k] == NNULL
  {
    if j < |b| {
      var n := |b| - 1;
      CountPrefix(b[..n], j);
      assert b[..n][..j] == b[..j];
      forall k | j <= k < |b| && Count(b[..j]) == Count(b) ensures b[k] == NNULL {
        if k < n {
          assert b[..n][k] == b[k];
        }
      }
    } else {
      assert b[..j] == b;
    }
  }

  lemma CountNext(b: seq<Nid>, j: nat)
    requires j < |b|
    ensures Count(b[..j + 1]) == Count(b[..j]) + if b[j] != NNULL then 1 else 0
  {
    assert b[..j + 1][..j] == b[..j];
  }

  // ---- holding a node ------------------------------------------------------------------------------------

  /** What an attempt for v leaves in a node that could not be held, or was held and released. */
  function AfterTry(p: Node, v: Hv): Node {
    if p.x == v.X() && p.y == 0 then p.(x := 0) else p
  }

  /**
    A node that was added for w can be held for a hash of the same upper half exactly if the hash is w and
    the upper half is not zero; what an attempt leaves can still be told as added for w.
   */
  lemma HeldExactlyIfSame(p: Node, w: Hv, v: Hv)
    requires p.Keeps(w) && p.y == v.Y()
    ensures p.x == v.X() && p.y == v.Y() && p.y != 0 <==> w == v && v.Y() != 0
    ensures AfterTry(p, v).Keeps(w) && AfterTry(p, v).data == p.data
  {
    if w.X() == v.X() && w.Y() == v.Y() {
      SameHalves(w, v);
    }
  }

  /** The nodes after a failed attempt on one of them. */
  lemma HoldStores(tabs: Tables, nodes: map<Nid, Node>, added: map<Nid, Hv>, m: map<Hv, Data>, free: seq<Nid>, s: Seat,
                   p: Node)
    requires Stores(tabs, nodes, added, m) && Pooled(tabs, nodes, free, {}) && Taken(tabs, s)
    requires var n := At(tabs, s); n in nodes && n in added && p.Keeps(added[n]) && p.data == nodes[n].data
    ensures Stores(tabs, nodes[At(tabs, s) := p], added, m) && Pooled(tabs, nodes[At(tabs, s) := p], free, {})
  {
    var nodes' := nodes[At(tabs, s) := p];
    forall u ensures SeatOk(tabs, nodes', added, m, u) { assert SeatOk(tabs, nodes, added, m, u); }
  }

  lemma TryKeeps(tabs: Tables, nodes: map<Nid, Node>, added: map<Nid, Hv>, m: map<Hv, Data>, free: seq<Nid>, s: Seat,
                 v: Hv)
    requires Stores(tabs, nodes, added, m) && Pooled(tabs, nodes, free, {}) && Taken(tabs, s)
    ensures At(tabs, s) in nodes
    ensures var p := nodes[At(tabs, s)];
            && (HoldsHash(tabs, added, s, v) && v.Y() != 0 <==> p.x == v.X() && p.y == v.Y() && p.y != 0)
            && (HoldsHash(tabs, added, s, v) && v.Y() != 0 ==> v in m && m[v] == p.data)
    ensures nodes[At(tabs, s)].y == v.Y() ==>
              var nodes' := nodes[At(tabs, s) := AfterTry(nodes[At(tabs, s)], v)];
              Stores(tabs, nodes', added, m) && Pooled(tabs, nodes', free, {})
  {
    var n := At(tabs, s);
    assert SeatOk(tabs, nodes, added, m, s);
    if nodes[n].y == v.Y() {
      HeldExactlyIfSame(nodes[n], added[n], v);
      HoldStores(tabs, nodes, added, m, free, s, AfterTry(nodes[n], v));
    }
  }

  // ---- one seat changes --------------------------------------------------------------------------------

  lemma PutIsLocal(tabs: Tables, s: Seat, n: Nid, u: Seat)
    requires IsSeat(tabs, s)
    ensures IsSeat(Put(tabs, s, n), u) <==> IsSeat(tabs, u)
    ensures IsSeat(tabs, u) ==> At(Put(tabs, s, n), u) == if u == s then n else At(tabs, u)
  {
  }

  lemma ShapeStays(tabs: Tables, s: Seat, n: Nid)
    requires Shape(tabs) && IsSeat(tabs, s)
    ensures Shape(Put(tabs, s, n)) && |Put(tabs, s, n)[0]| == |tabs[0]| && |Put(tabs, s, n)[1]| == |tabs[1]|
  {
  }

  /** A node that is in no seat is put into a free seat of its hash; the map changes if the upper half is not zero. */
  lemma PutStores(tabs: Tables, nodes: map<Nid, Node>, added: map<Nid, Hv>, m: map<Hv, Data>, s: Seat, n: Nid, v: Hv,
                  data: Data)
    requires Stores(tabs, nodes, added, m) && IsSeat(tabs, s) && At(tabs, s) == NNULL && v !in m && MayHold(tabs, v, s)
    requires n != NNULL && n in nodes && !InSeat(tabs, n)
    ensures Stores(Put(tabs, s, n), nodes[n := Node(v.X(), v.Y(), data)], added[n := v], Updated(m, v, data))
    ensures n !in added
  {
    var tabs', nodes', added', m' := Put(tabs, s, n), nodes[n := Node(v.X(), v.Y(), data)], added[n := v],
        Updated(m, v, data);
    ShapeStays(tabs, s, n);
    forall u ensures SeatOk(tabs', nodes', added', m', u) {
      PutIsLocal(tabs, s, n, u);
      assert SeatOk(tabs, nodes, added, m, u);
      assert Taken(tabs, u) ==> InSeat(tabs, At(tabs, u));
    }
    forall u, w ensures Apart(tabs', added', u, w) {
      PutIsLocal(tabs, s, n, u);
      PutIsLocal(tabs, s, n, w);
      assert SeatOk(tabs, nodes, added, m, u) && SeatOk(tabs, nodes, added, m, w) && Apart(tabs, added, u, w);
      assert Taken(tabs, u) ==> InSeat(tabs, At(tabs, u));
      assert Taken(tabs, w) ==> InSeat(tabs, At(tabs, w));
    }
    PutIsLocal(tabs, s, n, s);
    assert HoldsHash(tabs', added', s, v);
    forall w | w in m' ensures Stored(tabs', added', w) {
      if w != v {
        assert Stored(tabs, added, w);
        var u :| HoldsHash(tabs, added, u, w);
        PutIsLocal(tabs, s, n, u);
        assert InSeat(tabs, At(tabs, u));
        assert HoldsHash(tabs', added', u, w);
      }
    }
    PutSeats(tabs, s, n);
  }

  function Updated(m: map<Hv, Data>, v: Hv, data: Data): map<Hv, Data> {
    if v.Y() != 0 then m[v := data] else m
  }

  lemma PutSeats(tabs: Tables, s: Seat, n: Nid)
    requires IsSeat(tabs, s) && At(tabs, s) == NNULL && n != NNULL
    ensures forall k {:trigger InSeat(Put(tabs, s, n), k)} :: InSeat(Put(tabs, s, n), k) <==> InSeat(tabs, k) || k == n
  {
    var tabs' := Put(tabs, s, n);
    PutIsLocal(tabs, s, n, s);
    forall k ensures InSeat(tabs', k) <==> InSeat(tabs, k) || k == n {
      if InSeat(tabs', k) {
        var u :| Taken(tabs', u) && At(tabs', u) == k;
        PutIsLocal(tabs, s, n, u);
        assert u != s ==> Taken(tabs, u);
      }
      if InSeat(tabs, k) {
        var u :| Taken(tabs, u) && At(tabs, u) == k;
        PutIsLocal(tabs, s, n, u);
        assert Taken(tabs', u);
      }
      assert Taken(tabs', s);
    }
  }

  lemma ClearSeats(tabs: Tables, added: map<Nid, Hv>, s: Seat)
    requires Taken(tabs, s) && forall u {:trigger Apart(tabs, added, s, u)} :: Apart(tabs, added, s, u)
    ensures forall k {:trigger InSeat(Put(tabs, s, NNULL), k)} :: InSeat(Put(tabs, s, NNULL), k) <==>
            InSeat(tabs, k) && k != At(tabs, s)
  {
    var tabs', n := Put(tabs, s, NNULL), At(tabs, s);
    forall k ensures InSeat(tabs', k) <==> InSeat(tabs, k) && k != n {
      if InSeat(tabs', k) {
        var u :| Taken(tabs', u) && At(tabs', u) == k;
        PutIsLocal(tabs, s, NNULL, u);
        assert Apart(tabs, added, s, u) && Taken(tabs, u);
      }
      if InSeat(tabs, k) && k != n {
        var u :| Taken(tabs, u) && At(tabs, u) == k;
        PutIsLocal(tabs, s, NNULL, u);
        assert Taken(tabs', u);
      }
    }
  }

  /** What was added for other hashes than v, or for v if it is one that is never found. */
  function Others(added: map<Nid, Hv>, v: Hv): map<Nid, Hv> {
    map n | n in added && (added[n] != v || v.Y() == 0) :: added[n]
  }

  /** The seat of a hash is cleared, and its node with it: that was the only one for this hash. */
  lemma ClearStores(tabs: Tables, nodes: map<Nid, Node>, added: map<Nid, Hv>, m: map<Hv, Data>, s: Seat, v: Hv)
    requires Stores(tabs, nodes, added, m) && HoldsHash(tabs, added, s, v) && v.Y() != 0
    ensures v in m && Stores(Put(tabs, s, NNULL), nodes[At(tabs, s) := NO_NODE], Others(added, v), m - {v})
    ensures Others(added, v) == added - {At(tabs, s)}
  {
    var n := At(tabs, s);
    var tabs', nodes', added', m' := Put(tabs, s, NNULL), nodes[n := NO_NODE], added - {n}, m - {v};
    ShapeStays(tabs, s, NNULL);
    assert SeatOk(tabs, nodes, added, m, s);
    forall k | k in added && k != n ensures added[k] != v {
      assert InSeat(tabs, k);
      var u :| Taken(tabs, u) && At(tabs, u) == k;
      assert Apart(tabs, added, s, u);
    }
    assert Others(added, v) == added';
    forall u ensures SeatOk(tabs', nodes', added', m', u) {
      PutIsLocal(tabs, s, NNULL, u);
      assert SeatOk(tabs, nodes, added, m, u) && Apart(tabs, added, s, u);
    }
    forall u, w ensures Apart(tabs', added', u, w) {
      PutIsLocal(tabs, s, NNULL, u);
      PutIsLocal(tabs, s, NNULL, w);
      assert Apart(tabs, added, u, w) && Apart(tabs, added, s, u) && Apart(tabs, added, s, w);
    }
    forall w | w in m' ensures Stored(tabs', added', w) {
      assert Stored(tabs, added, w);
      var u :| HoldsHash(tabs, added, u, w);
      PutIsLocal(tabs, s, NNULL, u);
      assert Apart(tabs, added, s, u);
      assert HoldsHash(tabs', added', u, w);
    }
    ClearSeats(tabs, added, s);
  }

  lemma PutPools(tabs: Tables, nodes: map<Nid, Node>, free: seq<Nid>, s: Seat, n: Nid, node: Node)
    requires Pooled(tabs, nodes, free, {n}) && IsSeat(tabs, s) && At(tabs, s) == NNULL
    ensures Pooled(Put(tabs, s, n), nodes[n := node], free, {})
  {
    assert n in {n};
    PutSeats(tabs, s, n);
  }

  lemma NewFirst(n: Nid, free: seq<Nid>)
    requires n !in free && forall i, j :: 0 <= i < j < |free| ==> free[i] != free[j]
    ensures forall i, j :: 0 <= i < j < |[n] + free| ==> ([n] + free)[i] != ([n] + free)[j]
    ensures forall k :: k in [n] + free <==> k == n || k in free
  {
    var all := [n] + free;
    forall i, j | 0 <= i < j < |all| ensures all[i] != all[j] { assert all[j] == free[j - 1] && free[j - 1] in free; }
  }

  lemma ClearPools(tabs: Tables, nodes: map<Nid, Node>, added: map<Nid, Hv>, free: seq<Nid>, s: Seat, node: Node)
    requires Pooled(tabs, nodes, free, {}) && Taken(tabs, s) && At(tabs, s) in nodes
    requires forall u {:trigger Apart(tabs, added, s, u)} :: Apart(tabs, added, s, u)
    ensures Pooled(Put(tabs, s, NNULL), nodes[At(tabs, s) := node], [At(tabs, s)] + free, {})
  {
    var n := At(tabs, s);
    assert InSeat(tabs, n);
    ClearSeats(tabs, added, s);
    NewFirst(n, free);
  }

  lemma PutKeeps(tabs: Tables, nodes: map<Nid, Node>, added: map<Nid, Hv>, m: map<Hv, Data>, free: seq<Nid>, s: Seat,
                 n: Nid, v: Hv)
    requires Stores(tabs, nodes, added, m) && Pooled(tabs, nodes, free, {n}) && n in nodes
             && nodes[n] == Node(v.X(), v.Y(), nodes[n].data)
    requires IsSeat(tabs, s) && At(tabs, s) == NNULL && v !in m && MayHold(tabs, v, s)
    ensures Stores(Put(tabs, s, n), nodes, added[n := v], Updated(m, v, nodes[n].data))
            && Pooled(Put(tabs, s, n), nodes, free, {})
    ensures n !in added && n != NNULL && |added[n := v]| == |added| + 1
  {
    assert n in {n} && nodes == nodes[n := Node(v.X(), v.Y(), nodes[n].data)];
    PutStores(tabs, nodes, added, m, s, n, v, nodes[n].data);
    PutPools(tabs, nodes, free, s, n, nodes[n]);
  }

  /** What holds when the seat s of v is cleared and its node freed. */
  ghost predicate Clearable(tabs: Tables, nodes: map<Nid, Node>, added: map<Nid, Hv>, m: map<Hv, Data>, free: seq<Nid>,
                            s: Seat, v: Hv)
    requires IsSeat(tabs, s)
  {
    var n, tabs' := At(tabs, s), Put(tabs, s, NNULL);
    && v in m && n in added && |Others(added, v)| == |added| - 1
    && Stores(tabs', nodes[n := NO_NODE], Others(added, v), m - {v})
       && Pooled(tabs', nodes[n := NO_NODE], [n] + free, {})
  }

  lemma IsClearable(tabs: Tables, nodes: map<Nid, Node>, added: map<Nid, Hv>, m: map<Hv, Data>, free: seq<Nid>,
                    s: Seat, v: Hv)
    requires Stores(tabs, nodes, added, m) && Pooled(tabs, nodes, free, {}) && Taken(tabs, s) && At(tabs, s) in nodes
    ensures HoldsHash(tabs, added, s, v) && v.Y() != 0 ==> Clearable(tabs, nodes, added, m, free, s, v)
  {
    if HoldsHash(tabs, added, s, v) && v.Y() != 0 {
      ClearStores(tabs, nodes, added, m, s, v);
      ClearPools(tabs, nodes, added, free, s, NO_NODE);
    }
  }

  lemma DropPools(tabs: Tables, nodes: map<Nid, Node>, free: seq<Nid>, n: Nid, node: Node)
    requires Pooled(tabs, nodes, free, {n})
    ensures Pooled(tabs, nodes[n := node], [n] + free, {})
  {
    assert n in {n};
    NewFirst(n, free);
  }

  lemma TakePools(tabs: Tables, nodes: map<Nid, Node>, free: seq<Nid>)
    requires Pooled(tabs, nodes, free, {}) && free != []
    ensures Pooled(tabs, nodes, free[1..], {free[0]})
  {
    assert free[0] in free;
    forall k ensures k in free <==> k == free[0] || k in free[1..] {}
  }

  function BlockNodes(b: nat, size: nat): seq<Nid> { seq(size, i => b * size + i) }

  lemma BlockPools(tabs: Tables, nodes: map<Nid, Node>, b: nat, size: nat)
    requires Shape(tabs) && Pooled(tabs, nodes, [], {}) && Numbered(nodes, b * size)
    requires (b + 1) * size <= NNULL && forall s :: Taken(tabs, s) ==> At(tabs, s) in nodes
    ensures var nodes' := nodes + map n: Nid | b * size <= n < b * size + size && InBlock(b, size, n) :: NO_NODE;
            Pooled(tabs, nodes', BlockNodes(b, size), {}) && Numbered(nodes', (b + 1) * size)
  {
    var free := BlockNodes(b, size);
    assert (b + 1) * size == b * size + size;
    forall n | b * size <= n < b * size + size ensures n in free && !InSeat(tabs, n) { assert free[n - b * size] == n; }
  }

  predicate InBlock(b: nat, size: nat, n: Nid) { b * size <= n < b * size + size }

  // ---- the table -------------------------------------------------------------------------------------------

  class HashTable {
    const blockSize: nat
    const maxBlocks: nat
    var tabs: Tables
    var ncur: seq<nat>
    var nodes: map<Nid, Node>
    var free: seq<Nid>
    var blocks: nat
    /** The hash that each node in a seat was added for, and the map of those hashes whose upper half is not zero. */
    ghost var added: map<Nid, Hv>
    ghost var M: map<Hv, Data>
    /** How many nodes all blocks have, and how many of them the blocks that are not there yet. */
    ghost const total: nat
    ghost var toCome: nat

    ghost predicate Counted() reads this { CountsFit(tabs, ncur) }

    ghost predicate Blocks() reads this {
      && blocks <= maxBlocks && blockSize > 0 && total <= NNULL
      && Numbered(nodes, total - toCome) && total == maxBlocks * blockSize && toCome == (maxBlocks - blocks) * blockSize
    }

    /** The nodes that can still be taken: those on the free list and those of the blocks to come. */
    ghost function Room(): int reads this {
      |free| + toCome
    }

    /** The invariant while a node or none is in hand: taken from the free list and in no seat yet. */
    ghost predicate Ok(hand: set<Nid>) reads this {
      && Stores(tabs, nodes, added, M) && Pooled(tabs, nodes, free, hand) && Counted() && Blocks()
      && |added| + (if hand == {} then 0 else 1) + Room() == total
    }

    ghost predicate Valid() reads this { Ok({}) }

    constructor (nb0: nat, nb1: nat, size: nat, max: nat)
      requires nb0 > 0 && nb1 > 0 && size > 0 && max * size <= NNULL
      ensures Valid() && M == map[] && added == map[] && Room() == max * size
      ensures AllSeatsFree(tabs)
    {
      blockSize, maxBlocks, blocks := size, max, 0;
      total, toCome := max * size, max * size;
      tabs := NoSeats(nb0, nb1);
      ncur := [0, 0, 0];
      nodes, free, added, M := map[], [], map[], map[];
      new;
      NewTable(nb0, nb1);
    }

    /** hold_bucket_otherwise_return_0 without other threads. */
    method Hold(n: Nid, v: Hv) returns (held: bool)
      requires n in nodes
      modifies this`nodes
      ensures held <==> old(nodes)[n].x == v.X() && old(nodes)[n].y == v.Y() && old(nodes)[n].y != 0
      ensures nodes == old(nodes)[n := if held then old(nodes)[n].(x := 0) else AfterTry(old(nodes)[n], v)]
    {
      if nodes[n].x != v.X() {
        return false;
      }
      nodes := nodes[n := nodes[n].(x := 0)];
      if nodes[n].y != v.Y() || nodes[n].y == 0 {
        Unhold(n, v);
        return false;
      }
      held := true;
    }

    /** unhold_bucket */
    method Unhold(n: Nid, v: Hv)
      requires n in nodes && nodes[n].x == 0
      modifies this`nodes
      ensures nodes == old(nodes)[n := old(nodes)[n].(x := if old(nodes)[n].y != 0 then v.X() else 0)]
    {
      if nodes[n].y != 0 {
        nodes := nodes[n := nodes[n].(x := v.X())];
      }
    }

    /** try_get and try_dup: the node is held, its data read, and the node released. */
    method Try(n: Nid, v: Hv) returns (hit: bool, found: Data)
      requires n in nodes
      modifies this`nodes
      ensures hit <==> old(nodes)[n].x == v.X() && old(nodes)[n].y == v.Y() && old(nodes)[n].y != 0
      ensures hit ==> found == old(nodes)[n].data
      ensures nodes == old(nodes)[n := AfterTry(old(nodes)[n], v)]
    {
      found := 0;
      hit := Hold(n, v);
      if hit {
        found := nodes[n].data;
        Unhold(n, v);
      }
    }

    /** likely_equal and the attempt to get the data of a seat. */
    method TryGet(s: Seat, v: Hv) returns (hit: bool, found: Data)
      requires Valid() && IsSeat(tabs, s)
      modifies this`nodes
      ensures Valid()
      ensures hit <==> HoldsHash(tabs, added, s, v) && v.Y() != 0
      ensures hit ==> v in M && found == M[v]
      ensures v in M ==> v.Y() != 0
    {
      assert v in M ==> Stored(tabs, added, v);
      var n := At(tabs, s);
      hit, found := false, 0;
      if n != NNULL {
        TryKeeps(tabs, nodes, added, M, free, s, v);
        SameNumbers(nodes, n, AfterTry(nodes[n], v), total - toCome);
        if nodes[n].y == v.Y() {
          hit, found := Try(n, v);
        }
      }
    }

    /** The first of the seats of a hash that gives it. */
    method FindInSeats(v: Hv, a: seq<Seat>) returns (hit: bool, found: Data)
      requires Valid() && a == Seats(v, |tabs[0]|, |tabs[1]|)
      modifies this`nodes
      ensures Valid()
      ensures hit ==> v in M && found == M[v]
      ensures !hit ==> v !in M || forall k :: 0 <= k < NSEAT ==> !HoldsHash(tabs, added, a[k], v)
    {
      var j := 0;
      hit, found := false, 0;
      while j < NSEAT
        invariant 0 <= j <= NSEAT && Valid()
        invariant v in M ==> forall k :: 0 <= k < j ==> !HoldsHash(tabs, added, a[k], v)
      {
        hit, found := TryGet(a[j], v);
        if hit {
          return;
        }
        j := j + 1;
      }
    }

    /** The same in the overflow array, up to its last node. */
    method FindInOverflow(v: Hv) returns (hit: bool, found: Data)
      requires Valid()
      modifies this`nodes
      ensures Valid()
      ensures hit ==> v in M && found == M[v]
      ensures !hit ==> v !in M || forall k: nat :: k < MINTAB ==> !HoldsHash(tabs, added, Seat(2, k), v)
    {
      var i, j := 0, 0;
      hit, found := false, 0;
      while i < ncur[2] && j < MINTAB
        invariant 0 <= j <= MINTAB && i == Count(tabs[2][..j]) && Valid()
        invariant v in M ==> forall k: nat :: k < j ==> !HoldsHash(tabs, added, Seat(2, k), v)
      {
        CountNext(tabs[2], j);
        if tabs[2][j] != NNULL {
          i := i + 1;
          hit, found := TryGet(Seat(2, j), v);
          if hit {
            return;
          }
        }
        j := j + 1;
      }
      CountPrefix(tabs[2], j);
    }

    /** The search of add and get: the seats of the hash first, then the overflow array. */
    method Find(v: Hv) returns (hit: bool, found: Data)
      requires Valid()
      modifies this`nodes
      ensures Valid()
      ensures hit <==> v in M
      ensures hit ==> found == M[v]
    {
      var a := Seats(v, |tabs[0]|, |tabs[1]|);
      hit, found := FindInSeats(v, a);
      if !hit {
        hit, found := FindInOverflow(v);
        if !hit {
          NotFound(tabs, nodes, added, M, v, a);
        }
      }
    }

    /** new_node: the first free node, after a new block was added if there was none; NNULL if the pool is used up. */
    method NewNode() returns (n: Nid)
      requires Valid()
      modifies this
      ensures tabs == old(tabs) && M == old(M) && added == old(added)
      ensures n == NNULL <==> old(Room()) == 0
      ensures if n == NNULL then Valid() && Room() == old(Room()) else Ok({n}) && Room() == old(Room()) - 1
    {
      if free == [] {
        if blocks >= maxBlocks {
          return NNULL;
        }
        RoomForBlock(maxBlocks - blocks, blockSize);
        AddBlock();
      } else {
        RoomForBlock(maxBlocks - blocks, blockSize);
      }
      TakePools(tabs, nodes, free);
      n := free[0];
      assert n in free;
      free := free[1..];
    }

    method AddBlock()
      requires Valid() && free == [] && blocks < maxBlocks
      modifies this
      ensures Valid() && free != [] && tabs == old(tabs) && M == old(M) && added == old(added) && Room() == old(Room())
    {
      var b, size := blocks, blockSize;
      ghost var before := nodes;
      BlockFits(b, size, maxBlocks, total, toCome);
      forall s | Taken(tabs, s) ensures At(tabs, s) in nodes { assert SeatOk(tabs, nodes, added, M, s); }
      BlockPools(tabs, nodes, b, size);
      nodes := nodes + map n: Nid | b * size <= n < b * size + size && InBlock(b, size, n) :: NO_NODE;
      free := BlockNodes(b, size);
      blocks := blocks + 1;
      toCome := toCome - size;
      MoreNodes(tabs, before, nodes, added, M);
    }

    /** try_add: the node in hand is put into a free seat; its lower half is zero meanwhile. */
    method TryAdd(n: Nid, s: Seat)
      requires n in nodes && IsSeat(tabs, s) && s.t < |ncur|
      modifies this`nodes, this`tabs, this`ncur
      ensures nodes == old(nodes) && tabs == Put(old(tabs), s, n) && ncur == old(ncur)[s.t := old(ncur)[s.t] + 1]
    {
      var x := nodes[n].x;
      nodes := nodes[n := nodes[n].(x := 0)];
      tabs := Put(tabs, s, n);
      ncur := ncur[s.t := ncur[s.t] + 1];
      nodes := nodes[n := nodes[n].(x := x)];
    }

    method Place(n: Nid, v: Hv, data: Data, s: Seat)
      requires Ok({n}) && IsSeat(tabs, s) && At(tabs, s) == NNULL && MayHold(tabs, v, s) && v !in M
      requires n in nodes && nodes[n] == Node(v.X(), v.Y(), data)
      modifies this`nodes, this`tabs, this`ncur, this`added, this`M
      ensures Valid() && M == Updated(old(M), v, data)
      ensures n !in old(added) && added == old(added)[n := v] && tabs == Put(old(tabs), s, n)
    {
      PutKeeps(tabs, nodes, added, M, free, s, n, v);
      CountsAfter(tabs, ncur, s, n);
      added := added[n := v];
      TryAdd(n, s);
      M := Updated(M, v, data);
    }

    /** try_del: if the node can be held, the seat is cleared and the node freed. */
    method TryDel(s: Seat, v: Hv) returns (hit: bool)
      requires Valid() && IsSeat(tabs, s)
      modifies this
      ensures Valid() && |tabs[0]| == old(|tabs[0]|) && |tabs[1]| == old(|tabs[1]|)
      ensures hit <==> HoldsHash(old(tabs), old(added), s, v) && v.Y() != 0
      ensures v in old(M) ==> v.Y() != 0
      ensures if hit then Gone(old(M), old(added), old(Room()), v)
              else tabs == old(tabs) && M == old(M) && added == old(added) && Room() == old(Room())
    {
      var n := At(tabs, s);
      hit := false;
      assert v in M ==> Stored(tabs, added, v);
      if n != NNULL {
        TryKeeps(tabs, nodes, added, M, free, s, v);
        IsClearable(tabs, nodes, added, M, free, s, v);
        SameNumbers(nodes, n, AfterTry(nodes[n], v), total - toCome);
        if nodes[n].y == v.Y() {
          hit := Hold(n, v);
          if hit {
            assert nodes[n := NO_NODE] == old(nodes)[n := NO_NODE];
            Remove(s, v);
          }
        }
      }
    }

    /** The hash v has gone, and with it one node. */
    ghost predicate Gone(m: map<Hv, Data>, was: map<Nid, Hv>, room: int, v: Hv) reads this {
      v in m && M == m - {v} && added == Others(was, v) && Room() == room + 1
    }

    /** The seat of a node that is held is cleared and the node freed. */
    method Remove(s: Seat, v: Hv)
      requires Counted() && Blocks() && |added| + Room() == total
      requires Taken(tabs, s) && At(tabs, s) in nodes && Shape(tabs) && Clearable(tabs, nodes, added, M, free, s, v)
      modifies this
      ensures Valid() && Gone(old(M), old(added), old(Room()), v)
      ensures |tabs[0]| == old(|tabs[0]|) && |tabs[1]| == old(|tabs[1]|)
    {
      var n := At(tabs, s);
      ShapeStays(tabs, s, NNULL);
      CountsAfter(tabs, ncur, s, NNULL);
      SameNumbers(nodes, n, NO_NODE, total - toCome);
      nodes := nodes[n := NO_NODE];
      tabs := Put(tabs, s, NNULL);
      ncur := ncur[s.t := ncur[s.t] - 1];
      free := [n] + free;
      assert Room() == old(Room()) + 1;
      added := Others(added, v);
      M := M - {v};
    }

    /** Puts a node in hand into the first free seat of its hash. */
    method SeatedInSeats(n: Nid, v: Hv, data: Data) returns (ok: bool, ghost s: Seat)
      requires Ok({n}) && v !in M && n in nodes && nodes[n] == Node(v.X(), v.Y(), data)
      modifies this
      ensures Room() == old(Room())
      ensures if ok then Entered(old(M), old(added), old(tabs), s, n, v, data)
              else Waiting(old(M), old(added), old(tabs), n, v, data)
      ensures ok <==> !NoOwnSeat(old(tabs), v)
    {
      var a := Seats(v, |tabs[0]|, |tabs[1]|);
      var j := 0;
      s := Seat(0, 0);
      while j < NSEAT
        invariant 0 <= j <= NSEAT && Room() == old(Room())
        invariant Waiting(old(M), old(added), old(tabs), n, v, data)
        invariant forall k :: 0 <= k < j ==> At(tabs, a[k]) != NNULL
      {
        if At(tabs, a[j]) == NNULL {
          s := a[j];
          Place(n, v, data, a[j]);
          return true, s;
        }
        j := j + 1;
      }
      ok := false;
    }

    /** The same in the overflow array. */
    method SeatedInOverflow(n: Nid, v: Hv, data: Data) returns (ok: bool, ghost s: Seat)
      requires Ok({n}) && v !in M && n in nodes && nodes[n] == Node(v.X(), v.Y(), data)
      modifies this
      ensures Room() == old(Room())
      ensures if ok then Entered(old(M), old(added), old(tabs), s, n, v, data)
              else Waiting(old(M), old(added), old(tabs), n, v, data)
      ensures ok <==> !NoOverflow(old(tabs))
    {
      s := Seat(0, 0);
      CountFull(tabs[2]);
      if ncur[2] < MINTAB {
        var j := 0;
        while j < MINTAB
          invariant 0 <= j <= MINTAB && Room() == old(Room())
          invariant Waiting(old(M), old(added), old(tabs), n, v, data)
          invariant forall k :: 0 <= k < j ==> tabs[2][k] != NNULL
        {
          if At(tabs, Seat(2, j)) == NNULL {
            s := Seat(2, j);
            Place(n, v, data, Seat(2, j));
            return true, s;
          }
          j := j + 1;
        }
      }
      ok := false;
    }

    method Seated(n: Nid, v: Hv, data: Data) returns (ok: bool, ghost s: Seat)
      requires Ok({n}) && v !in M && n in nodes && nodes[n] == Node(v.X(), v.Y(), data)
      modifies this
      ensures Room() == old(Room())
      ensures if ok then Entered(old(M), old(added), old(tabs), s, n, v, data)
              else Waiting(old(M), old(added), old(tabs), n, v, data)
      ensures ok <==> !NoSeat(old(tabs), v)
    {
      ok, s := SeatedInSeats(n, v, data);
      if !ok {
        ok, s := SeatedInOverflow(n, v, data);
      }
    }

    /** Node n was put into seat s for v. */
    ghost predicate Entered(m: map<Hv, Data>, was: map<Nid, Hv>, t: Tables, s: Seat, n: Nid, v: Hv, data: Data)
      reads this
    {
      Valid() && M == Updated(m, v, data) && n !in was && added == was[n := v] && InFreeSeat(t, tabs, s, n)
    }

    /** Node n is still in hand, and nothing has changed. */
    ghost predicate Waiting(m: map<Hv, Data>, was: map<Nid, Hv>, t: Tables, n: Nid, v: Hv, data: Data) reads this {
      Ok({n}) && M == m && added == was && tabs == t && n in nodes && nodes[n] == Node(v.X(), v.Y(), data)
    }

    /** What add does with a hash that is not there. */
    method AddNew(v: Hv, data: Data) returns (r: int, ghost s: Seat, ghost n: Nid)
      requires Valid() && v !in M
      modifies this
      ensures r == -2 <==> old(Room()) == 0
      ensures r == -1 <==> old(Room()) != 0 && NoSeat(old(tabs), v)
      ensures r == 0 || r == -1 || r == -2
      ensures r == 0 ==> Entered(old(M), old(added), old(tabs), s, n, v, data) && Room() == old(Room()) - 1
      ensures r != 0 ==> Valid() && M == old(M) && tabs == old(tabs) && added == old(added) && Room() == old(Room())
    {
      s, n := Seat(0, 0), NNULL;
      var ni := NewNode();
      if ni == NNULL {
        return -2, s, n;
      }
      assert ni in {ni};
      SetNode(ni, Node(v.X(), v.Y(), data));
      var ok;
      ok, s := Seated(ni, v, data);
      if ok {
        return 0, s, ni;
      }
      FreeNode(ni);
      r := -1;
    }

    /**
      1: the hash is there already, with data found; 0: added, node n in seat s; -1: no seat is left; -2: no node is
      left.
      A hash whose upper half is zero never is there already.
     */
    method Add(v: Hv, data: Data) returns (r: int, found: Data, ghost s: Seat, ghost n: Nid)
      requires Valid()
      modifies this
      ensures Valid() && (r == 1 || r == 0 || r == -1 || r == -2)
      ensures r == 1 <==> v in old(M)
      ensures r == 1 ==> found == old(M)[v]
      ensures r == -2 <==> v !in old(M) && old(Room()) == 0
      ensures r == -1 <==> v !in old(M) && old(Room()) != 0 && NoSeat(old(tabs), v)
      ensures M == if r == 0 then Updated(old(M), v, data) else old(M)
      ensures r == 0 ==> InFreeSeat(old(tabs), tabs, s, n) && Room() == old(Room()) - 1
      ensures r == 0 ==> n !in old(added) && added == old(added)[n := v]
      ensures r != 0 ==> tabs == old(tabs) && added == old(added) && Room() == old(Room())
    {
      var there;
      s, n := Seat(0, 0), NNULL;
      there, found := Find(v);
      if there {
        return 1, found, s, n;
      }
      r, s, n := AddNew(v, data);
    }

    /** set_hash_node, for a node in hand. */
    method SetNode(n: Nid, p: Node)
      requires Ok({n}) && n in nodes
      modifies this`nodes
      ensures Ok({n}) && nodes == old(nodes)[n := p]
    {
      assert n in {n};
      LooseNodeStores(tabs, nodes, added, M, n, p);
      nodes := nodes[n := p];
    }

    /** memset and free_node, for a node in hand. */
    method FreeNode(n: Nid)
      requires Ok({n})
      modifies this`nodes, this`free
      ensures Valid() && Room() == old(Room()) + 1
    {
      assert n in {n};
      DropPools(tabs, nodes, free, n, NO_NODE);
      LooseNodeStores(tabs, nodes, added, M, n, NO_NODE);
      nodes := nodes[n := NO_NODE];
      free := [n] + free;
    }

    method Get(v: Hv) returns (r: int, found: Data)
      requires Valid()
      modifies this`nodes
      ensures Valid() && r == (if v in M then 0 else -1) && (r == 0 ==> found == M[v])
    {
      var there;
      there, found := Find(v);
      r := if there then 0 else -1;
    }

    method DelInSeats(v: Hv, a: seq<Seat>) returns (i: nat)
      requires Valid() && AllSeats(tabs, a)
      modifies this
      ensures Valid() && |tabs[0]| == old(|tabs[0]|) && |tabs[1]| == old(|tabs[1]|)
      ensures if i > 0 then Gone(old(M), old(added), old(Room()), v)
              else M == old(M) && added == old(added) && Room() == old(Room())
      ensures v !in M || forall k :: 0 <= k < NSEAT ==> !HoldsHash(tabs, added, a[k], v)
    {
      i := 0;
      var j := 0;
      while j < NSEAT
        invariant Valid() && 0 <= j <= NSEAT && |tabs[0]| == old(|tabs[0]|) && |tabs[1]| == old(|tabs[1]|)
        invariant if i > 0 then Gone(old(M), old(added), old(Room()), v)
                  else M == old(M) && added == old(added) && Room() == old(Room())
        invariant v in M ==> forall k :: 0 <= k < j ==> !HoldsHash(tabs, added, a[k], v)
      {
        var hit := TryDel(a[j], v);
        if hit {
          i := i + 1;
        }
        j := j + 1;
      }
    }

    method DelInOverflow(v: Hv) returns (i: nat)
      requires Valid()
      modifies this
      ensures Valid() && (i == 0 ==> tabs == old(tabs))
      ensures if i > 0 then Gone(old(M), old(added), old(Room()), v)
              else M == old(M) && added == old(added) && Room() == old(Room())
      ensures v !in M || forall k: nat :: k < MINTAB ==> !HoldsHash(tabs, added, Seat(2, k), v)
    {
      i := 0;
      CountPrefix(tabs[2], 0);
      if ncur[2] > 0 {
        var j := 0;
        while j < MINTAB
          invariant Valid() && 0 <= j <= MINTAB && (i == 0 ==> tabs == old(tabs))
          invariant if i > 0 then Gone(old(M), old(added), old(Room()), v)
                    else M == old(M) && added == old(added) && Room() == old(Room())
          invariant v in M ==> forall k: nat :: k < j ==> !HoldsHash(tabs, added, Seat(2, k), v)
        {
          var hit := TryDel(Seat(2, j), v);
          if hit {
            i := i + 1;
          }
          j := j + 1;
        }
      }
    }

    /** Removes every match: there is one at most, though several seats may coincide. */
    method Del(v: Hv) returns (r: int)
      requires Valid()
      modifies this
      ensures Valid() && r == if v in old(M) then 0 else -1
      ensures if r == 0 then Gone(old(M), old(added), old(Room()), v)
              else M == old(M) && added == old(added) && Room() == old(Room())
    {
      var a := Seats(v, |tabs[0]|, |tabs[1]|);
      var i := DelInSeats(v, a);
      var i' := DelInOverflow(v);
      if i + i' == 0 {
        NotFound(tabs, nodes, added, M, v, a);
      }
      r := if i + i' > 0 then 0 else -1;
    }
  }

  // ---- hashes whose upper half is zero --------------------------------------------------------------------

  /** What was added is found by another add, by get and by del exactly if the upper half of the hash is not zero. */
  method FoundIffUpperHalf(h: HashTable, v: Hv, data: Data, other: Data)
      returns (added: bool, there: bool, got: bool, deleted: bool, found: Data, found': Data)
    requires h.Valid()
    modifies h
    ensures h.Valid()
    ensures added ==> (there <==> v.Y() != 0) && (got <==> v.Y() != 0) && (deleted <==> v.Y() != 0)
    ensures added && v.Y() != 0 ==> found == data && found' == data
  {
    var r;
    ghost var s, n;
    r, found, s, n := h.Add(v, data);
    added := r == 0;
    r, found, s, n := h.Add(v, other);
    there := r == 1;
    r, found' := h.Get(v);
    got := r == 0;
    r := h.Del(v);
    deleted := r == 0;
  }

  /** Such a hash that is added twice takes two seats; in a table without entries both adds succeed. */
  method AddedTwice(h: HashTable, v: Hv, d: Data, e: Data) returns (r: int, r': int, ghost s: Seat, ghost u: Seat)
    requires h.Valid() && v.Y() == 0
    modifies h
    ensures h.Valid() && r != 1 && r' != 1
    ensures r == 0 && r' == 0 ==> s != u && HoldsHash(h.tabs, h.added, s, v) && HoldsHash(h.tabs, h.added, u, v)
    ensures old(h.Room() >= 2 && AllSeatsFree(h.tabs)) ==> r == 0 && r' == 0
  {
    ghost var tabs := h.tabs;
    assert v in h.M ==> Stored(tabs, h.added, v);
    var found;
    ghost var n, n';
    FreeSeatsLeft(tabs, v);
    r, found, s, n := h.Add(v, d);
    ghost var tabs' := h.tabs;
    if r == 0 {
      SeatsLeft(tabs, s, n, v);
    }
    r', found, u, n' := h.Add(v, e);
    if r == 0 && r' == 0 {
      PutIsLocal(tabs', u, n', s);
      PutIsLocal(tabs', u, n', u);
    }
  }

  ghost predicate AllSeatsFree(tabs: Tables) {
    forall s :: !Taken(tabs, s)
  }

  lemma FreeSeatsLeft(tabs: Tables, v: Hv)
    requires Shape(tabs)
    ensures AllSeatsFree(tabs) ==> !NoSeat(tabs, v)
  {
    if AllSeatsFree(tabs) {
      assert !Taken(tabs, Seat(2, 0));
    }
  }

  lemma SeatsLeft(tabs: Tables, s: Seat, n: Nid, v: Hv)
    requires Shape(tabs) && IsSeat(tabs, s) && InFreeSeat(tabs, Put(tabs, s, n), s, n)
    ensures var tabs' := Put(tabs, s, n); IsSeat(tabs', s) && At(tabs', s) == n && Shape(tabs')
    ensures AllSeatsFree(tabs) ==> !NoSeat(Put(tabs, s, n), v)
  {
    PutIsLocal(tabs, s, n, s);
    ShapeStays(tabs, s, n);
    if AllSeatsFree(tabs) {
      var w := if s == Seat(2, 0) then Seat(2, 1) else Seat(2, 0);
      PutIsLocal(tabs, s, n, w);
      assert !Taken(tabs, w) && IsSeat(tabs, w);
    }
  }

  lemma {:induction false} AllFree(b: seq<Nid>)
    requires forall i :: 0 <= i < |b| ==> b[i] == NNULL
    ensures Count(b) == 0
  {
    if |b| > 0 {
      AllFree(b[..|b| - 1]);
    }
  }

  function NoSeats(nb0: nat, nb1: nat): Tables {
    [seq(nb0, _ => NNULL), seq(nb1, _ => NNULL), seq(MINTAB, _ => NNULL)]
  }

  lemma NewTable(nb0: nat, nb1: nat)
    requires nb0 > 0 && nb1 > 0
    ensures var tabs := NoSeats(nb0, nb1);
            && Stores(tabs, map[], map[], map[]) && Pooled(tabs, map[], [], {}) && AllSeatsFree(tabs)
            && CountsFit(tabs, [0, 0, 0])
  {
    var tabs := NoSeats(nb0, nb1);
    AllFree(tabs[0]);
    AllFree(tabs[1]);
    AllFree(tabs[2]);
    forall s ensures !Taken(tabs, s) {
      if s.t < 3 && s.i < |tabs[s.t]| {
        assert tabs[s.t] == tabs[0] || tabs[s.t] == tabs[1] || tabs[s.t] == tabs[2];
      }
    }
  }

  // A stored hash is in one of its seats or in the overflow array.
  lemma HeldWhere(tabs: Tables, nodes: map<Nid, Node>, added: map<Nid, Hv>, m: map<Hv, Data>, v: Hv, s: Seat)
    requires Stores(tabs, nodes, added, m) && HoldsHash(tabs, added, s, v)
    ensures s in Seats(v, |tabs[0]|, |tabs[1]|) || (s.t == 2 && s.i < MINTAB)
  {
    assert SeatOk(tabs, nodes, added, m, s);
  }

  lemma NotFound(tabs: Tables, nodes: map<Nid, Node>, added: map<Nid, Hv>, m: map<Hv, Data>, v: Hv, a: seq<Seat>)
    requires Stores(tabs, nodes, added, m) && a == Seats(v, |tabs[0]|, |tabs[1]|)
    requires v !in m || forall k :: 0 <= k < NSEAT ==> !HoldsHash(tabs, added, a[k], v)
    requires v !in m || forall k: nat :: k < MINTAB ==> !HoldsHash(tabs, added, Seat(2, k), v)
    ensures v !in m
  {
    if v in m {
      assert Stored(tabs, added, v);
      var s :| HoldsHash(tabs, added, s, v);
      HeldWhere(tabs, nodes, added, m, v, s);
    }
  }

  /** One seat was free and has node n now. */
  ghost predicate InFreeSeat(tabs: Tables, tabs': Tables, s: Seat, n: Nid) {
    IsSeat(tabs, s) && At(tabs, s) == NNULL && n != NNULL && tabs' == Put(tabs, s, n)
  }

  /** All seats of a hash are taken. */
  ghost predicate NoOwnSeat(tabs: Tables, v: Hv)
    requires Shape(tabs)
  {
    forall k :: 0 <= k < NSEAT ==> At(tabs, Seats(v, |tabs[0]|, |tabs[1]|)[k]) != NNULL
  }

  /** So exactly if all positions of the hash are taken in both tables. */
  lemma NoOwnSeatIs(tabs: Tables, v: Hv)
    requires Shape(tabs)
    ensures NoOwnSeat(tabs, v) <==>
      forall t, i :: 0 <= t < 2 && 0 <= i < |tabs[t]| && IsSpread(v, i, |tabs[t]|) ==> tabs[t][i] != NNULL
  {
    var a := Seats(v, |tabs[0]|, |tabs[1]|);
    if NoOwnSeat(tabs, v) {
      forall t, i | 0 <= t < 2 && 0 <= i < |tabs[t]| && IsSpread(v, i, |tabs[t]|) ensures tabs[t][i] != NNULL {
        SeatsAre(v, |tabs[0]|, |tabs[1]|, Seat(t, i));
        var n :| 0 <= n < NSEAT && a[n] == Seat(t, i);
        assert At(tabs, a[n]) != NNULL;
      }
    } else {
      var n :| 0 <= n < NSEAT && At(tabs, a[n]) == NNULL;
      SeatsAre(v, |tabs[0]|, |tabs[1]|, a[n]);
    }
  }

  ghost predicate NoOverflow(tabs: Tables)
    requires Shape(tabs)
  {
    forall k :: 0 <= k < MINTAB ==> tabs[2][k] != NNULL
  }

  ghost predicate NoSeat(tabs: Tables, v: Hv)
    requires Shape(tabs)
  {
    NoOwnSeat(tabs, v) && NoOverflow(tabs)
  }

  lemma BlockFits(b: nat, size: nat, max: nat, total: int, toCome: int)
    requires b < max && total == max * size && toCome == (max - b) * size
    ensures toCome >= size && toCome - size == (max - (b + 1)) * size
    ensures total - toCome == b * size && total - toCome + size == (b + 1) * size
  {
    assert (max - (b + 1)) * size >= 0;
  }

  lemma RoomForBlock(left: nat, size: nat)
    requires size > 0
    ensures left > 0 ==> left * size == (left - 1) * size + size
    ensures left * size == 0 <==> left == 0
  {
  }

  // New nodes are in no seat.
  lemma MoreNodes(tabs: Tables, nodes: map<Nid, Node>, nodes': map<Nid, Node>, added: map<Nid, Hv>, m: map<Hv, Data>)
    requires Stores(tabs, nodes, added, m) && (forall n :: n in nodes ==> n in nodes' && nodes'[n] == nodes[n])
    ensures Stores(tabs, nodes', added, m)
  {
    forall s ensures SeatOk(tabs, nodes', added, m, s) { assert SeatOk(tabs, nodes, added, m, s); }
  }

  // A node that is in no seat may have anything in it.
  lemma LooseNodeStores(tabs: Tables, nodes: map<Nid, Node>, added: map<Nid, Hv>, m: map<Hv, Data>, n: Nid, p: Node)
    requires Stores(tabs, nodes, added, m) && !InSeat(tabs, n)
    ensures Stores(tabs, nodes[n := p], added, m)
  {
    var nodes' := nodes[n := p];
    forall s ensures SeatOk(tabs, nodes', added, m, s) {
      assert SeatOk(tabs, nodes, added, m, s) && (Taken(tabs, s) ==> InSeat(tabs, At(tabs, s)));
    }
  }
}
