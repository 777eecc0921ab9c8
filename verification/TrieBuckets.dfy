/** The tables of the buckets of a HAT-trie, numbered, and the split of one of them (lib/hat-trie/src/hat-trie.c). */
module TrieBuckets {
  import AhTable
  import SlotBytes
  import opened Basics
  import opened TrieShape
  import opened TrieSteps

  // ---- where a bucket is cut ---------------------------------------------------------------------

  function Starting(table: map<Bytes, Value>, c: byte): set<Bytes> {
    set s | s in table && s != [] && s[0] == c
  }

  /** The character after which the split loop stops. */
  ghost predicate Cut(cs: seq<nat>, c0: byte, c1: byte, all: nat, j: byte)
    requires |cs| == NODE_CHILDS
  {
    && c0 <= j < c1
    && (forall c :: c0 < c <= j ==> cs[c] == 0)
    && (if cs[c0] < all <= 2 * cs[c0] then j + 1 == c1 || cs[j + 1] > 0 else j == c0)
  }

  function Abs(x: int): nat { if x < 0 then -x else x }

  /**
   * The split loop never balances: it moves on only over characters that no entry starts with, so that
   * the left bucket gets the entries of the first character alone.
   */
  method ChooseSplit(cs: array<nat>, c0: byte, c1: byte, all: nat) returns (j: byte)
    requires cs.Length == NODE_CHILDS && c0 < c1 && cs[c0] <= all
    requires forall c: byte :: c != c0 ==> cs[c0] + cs[c] <= all
    ensures Cut(cs[..], c0, c1, all, j)
  {
    j := c0;
    var left := cs[j];
    var right := all - left;
    while j + 1 < c1
      invariant c0 <= j < c1
      invariant left == cs[c0] && right == all - left
      invariant forall c :: c0 < c <= j ==> cs[c] == 0
      invariant j > c0 ==> cs[c0] < all <= 2 * cs[c0]
      decreases c1 - j
    {
      var d := Abs((left + cs[j + 1]) - (right - cs[j + 1]));
      if d <= left - right && left + cs[j + 1] < all {
        j := j + 1;
        left := left + cs[j];
        right := right - cs[j];
      } else {
        break;
      }
    }
  }

  // ---- distributing the entries ------------------------------------------------------------------

  /** A new bucket for lo..hi after it took entry s, if that is its range. */
  function Added(part: map<Bytes, Value>, s: Bytes, v: Value, lo: byte, hi: byte): map<Bytes, Value>
    requires s != []
  {
    if lo <= s[0] <= hi then part[Tail(s, lo, hi) := v] else part
  }

  lemma PartAdd(part: map<Bytes, Value>, table: map<Bytes, Value>, s: Bytes, v: Value, lo: byte, hi: byte)
    requires s != [] && lo <= hi && IsPart(part, table, lo, hi)
    ensures IsPart(Added(part, s, v, lo, hi), table[s := v], lo, hi)
  {
    assert [s[0]] + s[1..] == s;
    forall e | e in part ensures Whole(e, lo, hi) != s || (lo <= s[0] <= hi && e == Tail(s, lo, hi)) {
      assert lo == hi ==> Whole(e, lo, hi)[1..] == e;
    }
  }

  lemma PartIsSmall(part: map<Bytes, Value>, table: map<Bytes, Value>, lo: byte, hi: byte)
    requires lo <= hi && IsPart(part, table, lo, hi)
    ensures |part| <= |table|
  {
    Injected(part.Keys, lo, hi);
    Subset(set e | e in part.Keys :: Whole(e, lo, hi), table.Keys);
  }

  lemma Subset<T>(a: set<T>, b: set<T>)
    requires a <= b
    ensures |a| <= |b|
  {
    assert b == a + (b - a);
  }

  lemma {:induction false} Injected(p: set<Bytes>, lo: byte, hi: byte)
    ensures |set e | e in p :: Whole(e, lo, hi)| == |p|
  {
    if p != {} {
      var x :| x in p;
      Injected(p - {x}, lo, hi);
      forall e | e in p - {x} ensures Whole(e, lo, hi) != Whole(x, lo, hi) {
        assert ([lo] + e)[1..] == e && ([lo] + x)[1..] == x;
      }
      assert (set e | e in p :: Whole(e, lo, hi)) == (set e | e in p - {x} :: Whole(e, lo, hi)) + {Whole(x, lo, hi)};
    }
  }

  // ---- counting the first characters -------------------------------------------------------------

  lemma StartingAdd(table: map<Bytes, Value>, s: Bytes, v: Value, c: byte)
    requires s != [] && s !in table
    ensures |Starting(table[s := v], c)| == if s[0] == c then |Starting(table, c)| + 1 else |Starting(table, c)|
  {
    assert Starting(table[s := v], c) == if s[0] == c then Starting(table, c) + {s} else Starting(table, c);
  }

  lemma StartingDisjoint(table: map<Bytes, Value>, c: byte, d: byte)
    requires c != d
    ensures |Starting(table, c)| + |Starting(table, d)| <= |table|
  {
    assert |Starting(table, c) + Starting(table, d)| == |Starting(table, c)| + |Starting(table, d)|;
    Subset(Starting(table, c) + Starting(table, d), table.Keys);
  }

  lemma StartingSmall(table: map<Bytes, Value>, c: byte)
    ensures |Starting(table, c)| <= |table|
  {
    Subset(Starting(table, c), table.Keys);
  }

  ghost predicate NoneEmpty(table: map<Bytes, Value>) {
    forall s :: s in table ==> s != []
  }

  /** cs has the number of entries for each first character. */
  ghost predicate Counts(cs: seq<nat>, table: map<Bytes, Value>) {
    |cs| == NODE_CHILDS && forall c: byte :: cs[c] == |Starting(table, c)|
  }

  lemma OneMore(cs: seq<nat>, table: map<Bytes, Value>, s: Bytes, v: Value)
    requires Counts(cs, table) && s != [] && s !in table
    ensures Counts(cs[s[0] := cs[s[0]] + 1], table[s := v])
  {
    forall c: byte ensures |Starting(table[s := v], c)| == if s[0] == c then cs[c] + 1 else cs[c] {
      StartingAdd(table, s, v, c);
    }
  }

  // The walk over table t has passed the entries of done, which are counted.
  ghost predicate Counting(t: AhTable.Table, cs: array<nat>, it: AhTable.Iter, j: nat, done: map<Bytes, Value>)
    reads t, cs
  {
    && t.Valid() && NoneEmpty(t.M) && AhTable.IterAt(t.lists, it, j)
    && done == AhTable.MapOf(AhTable.Passed(t.lists, it.i, j)) && Counts(cs[..], done)
  }

  method CountOne(t: AhTable.Table, cs: array<nat>, it: AhTable.Iter, ghost j: nat, ghost done: map<Bytes, Value>)
      returns (it': AhTable.Iter, ghost j': nat, ghost done': map<Bytes, Value>)
    requires Counting(t, cs, it, j, done) && it.i < |t.slots|
    modifies cs
    ensures Counting(t, cs, it', j', done') && (it'.i > it.i || (it'.i == it.i && j' > j))
  {
    AhTable.WalkComesOnce(t.hash, t.lists, t.M, it.i, j);
    var e;
    e, it', j' := AhTable.NextEntry(t.slots, it, t.lists, j);
    OneMore(cs[..], done, e.key, e.value);
    ghost var before := cs[..];
    cs[e.key[0]] := cs[e.key[0]] + 1;
    assert cs[..] == before[e.key[0] := before[e.key[0]] + 1];
    done' := done[e.key := e.value];
  }

  /** Walks over the packed entries of a table. */
  method CountFirst(t: AhTable.Table) returns (cs: array<nat>)
    requires t.Valid() && NoneEmpty(t.M)
    ensures fresh(cs) && Counts(cs[..], t.M)
  {
    cs := new nat[NODE_CHILDS](_ => 0);
    ghost var done: map<Bytes, Value> := map[];
    var it, j := AhTable.Begin(t.slots, t.lists);
    while it.i < |t.slots|
      invariant Counting(t, cs, it, j, done)
      decreases |t.slots| - it.i, if it.i < |t.slots| then |t.lists[it.i]| - j else 0
    {
      it, j, done := CountOne(t, cs, it, j, done);
    }
    AhTable.WalkedAll(t.hash, t.lists, t.M);
  }

  /** One entry goes to the new table that is for its first character. */
  method PutEntry(left: AhTable.Table, right: AhTable.Table, e: SlotBytes.Entry, c0: byte, j: byte, c1: byte)
    requires left.Valid() && right.Valid() && left != right && e.Ok() && e.key != [] && c0 <= j < c1
             && c0 <= e.key[0] <= c1
    modifies left, right
    ensures left.Valid() && left.M == Added(old(left.M), e.key, e.value, c0, j)
    ensures right.Valid() && right.M == Added(old(right.M), e.key, e.value, j + 1, c1)
  {
    var ok;
    if e.key[0] <= j {
      ok := left.Set(if c0 == j then e.key[1..] else e.key, e.value);
    } else {
      ok := right.Set(if j + 1 == c1 then e.key[1..] else e.key, e.value);
    }
  }

  // The walk over table t has passed the entries of done, which are in the two new tables.
  ghost predicate Parting(t: AhTable.Table, left: AhTable.Table, right: AhTable.Table, it: AhTable.Iter, k: nat,
                          done: map<Bytes, Value>, c0: byte, j: byte, c1: byte)
    requires c0 <= j < c1
    reads t, left, right
  {
    && t.Valid() && left.Valid() && right.Valid() && left != right && t != left && t != right
    && InRange(t.M, c0, c1) && AhTable.IterAt(t.lists, it, k) && done == AhTable.MapOf(AhTable.Passed(t.lists, it.i, k))
    && IsPart(left.M, done, c0, j) && IsPart(right.M, done, j + 1, c1)
  }

  method DistributeOne(t: AhTable.Table, left: AhTable.Table, right: AhTable.Table, it: AhTable.Iter, ghost k: nat,
                       ghost done: map<Bytes, Value>, c0: byte, j: byte, c1: byte)
      returns (it': AhTable.Iter, ghost k': nat, ghost done': map<Bytes, Value>)
    requires c0 <= j < c1 && Parting(t, left, right, it, k, done, c0, j, c1) && it.i < |t.slots|
    modifies left, right
    ensures Parting(t, left, right, it', k', done', c0, j, c1)
    ensures it'.i > it.i || (it'.i == it.i && k' > k)
  {
    AhTable.WalkComesOnce(t.hash, t.lists, t.M, it.i, k);
    var e;
    e, it', k' := AhTable.NextEntry(t.slots, it, t.lists, k);
    PartAdd(left.M, done, e.key, e.value, c0, j);
    PartAdd(right.M, done, e.key, e.value, j + 1, c1);
    PutEntry(left, right, e, c0, j, c1);
    done' := done[e.key := e.value];
  }

  lemma AllParted(t: AhTable.Table, left: AhTable.Table, right: AhTable.Table, it: AhTable.Iter, k: nat,
                  done: map<Bytes, Value>, c0: byte, j: byte, c1: byte)
    requires c0 <= j < c1 && Parting(t, left, right, it, k, done, c0, j, c1) && it.i >= |t.slots|
    ensures done == t.M
  {
    AhTable.WalkedAll(t.hash, t.lists, t.M);
  }

  /** The entries of a table go to the two new tables. */
  method Distribute(t: AhTable.Table, left: AhTable.Table, right: AhTable.Table, c0: byte, j: byte, c1: byte)
    requires t.Valid() && left.Valid() && right.Valid() && left != right && t != left && t != right
    requires left.M == map[] && right.M == map[] && c0 <= j < c1 && InRange(t.M, c0, c1)
    modifies left, right
    ensures left.Valid() && right.Valid() && IsPart(left.M, t.M, c0, j) && IsPart(right.M, t.M, j + 1, c1)
  {
    ghost var done: map<Bytes, Value> := map[];
    var it, k := AhTable.Begin(t.slots, t.lists);
    while it.i < |t.slots|
      invariant Parting(t, left, right, it, k, done, c0, j, c1)
      decreases |t.slots| - it.i, if it.i < |t.slots| then |t.lists[it.i]| - k else 0
    {
      it, k, done := DistributeOne(t, left, right, it, k, done, c0, j, c1);
    }
    AllParted(t, left, right, it, k, done, c0, j, c1);
  }

  /** The slots of a table for so many entries. */
  method SlotsFor(count: nat) returns (n: nat)
    ensures n > 0 && count <= AhTable.MAX_LOAD * n
  {
    n := AhTable.INITIAL_SIZE;
    while count > AhTable.MAX_LOAD * n
      invariant n > 0
      decreases count - n
    {
      n := 2 * n;
    }
  }

  ghost predicate InRange(table: map<Bytes, Value>, c0: byte, c1: byte) {
    forall s :: s in table ==> s != [] && c0 <= s[0] <= c1
  }

  // Every entry of a bucket for c0..j starts with c0.
  ghost predicate FirstOnly(part: map<Bytes, Value>, c0: byte, j: byte) {
    forall e :: e in part ==> Whole(e, c0, j) != [] && Whole(e, c0, j)[0] == c0
  }

  method CutPoint(cs: array<nat>, t: AhTable.Table, c0: byte, c1: byte) returns (j: byte)
    requires c0 < c1 && t.Valid() && Counts(cs[..], t.M)
    ensures c0 <= j < c1
    ensures forall s :: s in t.M && s != [] && c0 <= s[0] <= j ==> s[0] == c0
  {
    ghost var table: map<Bytes, Value> := t.M;
    forall c: byte ensures cs[c] <= |table| && (c != c0 ==> cs[c0] + cs[c] <= |table|) {
      StartingSmall(table, c);
      if c != c0 {
        StartingDisjoint(table, c0, c);
      }
    }
    j := ChooseSplit(cs, c0, c1, t.m);
    forall s | s in table && s != [] && c0 <= s[0] <= j ensures s[0] == c0 {
      assert s in Starting(table, s[0]);
      assert cs[s[0]] > 0;
    }
  }

  // ---- the tables ----------------------------------------------------------------------------------

  ghost predicate HasTable(t: AhTable.Table, table: map<Bytes, Value>, hash: AhTable.Hash) reads t {
    t.Valid() && t.M == table && t.hash == hash
  }

  type Tables = map<Id, AhTable.Table>

  /** What each table holds, the tables there are and those that were split, and whose they are. */
  datatype Books = Books(contents: map<Id, map<Bytes, Value>>, repr: set<AhTable.Table>, owner: map<AhTable.Table,
                         Id>) {
    /** Table x is replaced by two new ones. */
    ghost function Replaced(x: Id, l: Id, r: Id, lt: AhTable.Table, rt: AhTable.Table): Books reads lt, rt {
      Books((contents - {x})[l := lt.M][r := rt.M], repr + {lt, rt}, owner[lt := l][rt := r])
    }
  }

  /** Table b holds its contents, and is nobody else's. */
  ghost predicate HoldsOne(tables: Tables, has: Books, hash: AhTable.Hash, b: Id)
    reads has.repr
  {
    && b in tables && tables[b] in has.repr && tables[b] in has.owner && has.owner[tables[b]] == b
    && b in has.contents && HasTable(tables[b], has.contents[b], hash)
  }

  ghost predicate AllHold(tables: Tables, has: Books, hash: AhTable.Hash)
    reads has.repr
  {
    && tables.Keys == has.contents.Keys
    && forall b {:trigger HoldsOne(tables, has, hash, b)} :: b in tables ==> HoldsOne(tables, has, hash, b)
  }

  lemma TwoForOne(tables: Tables, has: Books, hash: AhTable.Hash, x: Id, l: Id, r: Id, lt: AhTable.Table,
                  rt: AhTable.Table)
    requires AllHold(tables, has, hash) && l !in has.contents && r !in has.contents && l != r && x in has.contents
    requires lt !in has.repr && rt !in has.repr && lt != rt && HasTable(lt, lt.M, hash) && HasTable(rt, rt.M, hash)
    ensures AllHold((tables - {x})[l := lt][r := rt], has.Replaced(x, l, r, lt, rt), hash)
  {
    var tables', has' := (tables - {x})[l := lt][r := rt], has.Replaced(x, l, r, lt, rt);
    forall b | b in tables' ensures HoldsOne(tables', has', hash, b) {
      if b != l && b != r {
        assert HoldsOne(tables, has, hash, b);
      }
    }
  }

  type Slots = seq<Bytes>
  type Lists = seq<seq<SlotBytes.Entry>>

  /** The packed slots of bucket b store the table. */
  ghost predicate Shared(slotsOf: map<Id, Slots>, sizeOf: map<Id, nat>, listsOf: map<Id, Lists>, hash: AhTable.Hash,
                         table: map<Bytes, Value>, b: Id) {
    && b in slotsOf && b in sizeOf && b in listsOf && sizeOf[b] == |table|
    && AhTable.Stores(hash, listsOf[b], table) && AhTable.Packed(slotsOf[b], listsOf[b])
  }

  class Buckets {
    const hash: AhTable.Hash
    var tables: Tables
    ghost var has: Books

    ghost predicate Valid() reads this, has.repr {
      AllHold(tables, has, hash)
    }

    ghost predicate Holds(b: Id) reads this, has.repr {
      HoldsOne(tables, has, hash, b)
    }

    constructor (keyHash: AhTable.Hash, b: Id)
      ensures Valid() && has.contents == map[b := map[]] && hash == keyHash && fresh(has.repr)
    {
      hash := keyHash;
      var t := new AhTable.Table(keyHash, AhTable.INITIAL_SIZE);
      tables := map[b := t];
      has := Books(map[b := map[]], {t}, map[t := b]);
    }

    /** The slots and the size of each table, for reading while nothing changes. */
    method Share() returns (slotsOf: map<Id, Slots>, sizeOf: map<Id, nat>, ghost listsOf: map<Id, Lists>)
      requires Valid()
      ensures forall b {:trigger has.contents[b]} :: b in has.contents ==>
                Shared(slotsOf, sizeOf, listsOf, hash, has.contents[b], b)
    {
      slotsOf := map b | b in tables :: tables[b].slots;
      sizeOf := map b | b in tables :: tables[b].m;
      listsOf := map b | b in tables :: tables[b].lists;
      forall b | b in has.contents ensures Shared(slotsOf, sizeOf, listsOf, hash, has.contents[b], b) {
        assert Holds(b);
      }
    }

    method Size(b: Id) returns (n: nat)
      requires Valid() && b in has.contents
      ensures n == |has.contents[b]|
    {
      assert Holds(b);
      n := tables[b].m;
    }

    method TryGet(b: Id, key: Bytes) returns (r: Option<Value>)
      requires Valid() && b in has.contents
      ensures r == if key in has.contents[b] then Some(has.contents[b][key]) else None
    {
      assert Holds(b);
      r := tables[b].TryGet(key);
    }

    /** Value pointer p, in slot i of table b, belongs to the key. */
    ghost predicate PointsTo(b: Id, key: Bytes, i: nat, p: nat, j: nat) reads this, has.repr {
      && b in tables && tables[b] in has.repr && i < |tables[b].lists|
      && var es := tables[b].lists[i];
         SlotBytes.AllOk(es) && j < |es| && es[j].key == key && p == AhTable.ValueAt(es, j)
    }

    /** By how much the table has grown is given back too. */
    method Get(b: Id, key: Bytes) returns (ok: bool, i: nat, p: nat, more: int, ghost j: nat)
      requires Valid() && b in has.contents
      modifies this`has, has.repr
      ensures Valid() && (ok <==> |key| <= SlotBytes.MAX_KEY)
      ensures has == old(has).(contents := old(has).contents[b := if ok then WithKey(old(has).contents[b], key)
              else old(has).contents[b]])
      ensures ok ==> PointsTo(b, key, i, p, j)
      ensures more == |has.contents[b]| - |old(has).contents[b]|
    {
      assert Holds(b);
      var before := tables[b].m;
      ok, i, p, j := tables[b].Get(key);
      more := tables[b].m - before;
      has := has.(contents := has.contents[b := tables[b].M]);
      forall c | c in tables && c != b ensures Holds(c) { assert old(Holds(c)); }
    }

    method Write(b: Id, ghost key: Bytes, i: nat, p: nat, ghost j: nat, v: Value)
      requires Valid() && b in has.contents && PointsTo(b, key, i, p, j) && |v| == VALUE_SIZE
      modifies this`has, has.repr
      ensures Valid() && has == old(has).(contents := old(has).contents[b := old(has).contents[b][key := v]])
    {
      assert Holds(b);
      tables[b].Write(i, p, j, v);
      has := has.(contents := has.contents[b := tables[b].M]);
      forall c | c in tables && c != b ensures Holds(c) { assert old(Holds(c)); }
    }

    method Del(b: Id, key: Bytes) returns (r: int, less: int)
      requires Valid() && b in has.contents
      modifies this`has, has.repr
      ensures Valid() && has == old(has).(contents := old(has).contents[b := old(has).contents[b] - {key}])
      ensures r == if key in old(has).contents[b] then 0 else -1
      ensures less == |old(has).contents[b]| - |has.contents[b]|
    {
      assert Holds(b);
      var before := tables[b].m;
      r := tables[b].Del(key);
      less := before - tables[b].m;
      has := has.(contents := has.contents[b := tables[b].M]);
      forall c | c in tables && c != b ensures Holds(c) { assert old(Holds(c)); }
    }

    /** Table x is replaced by tables l and r for the characters c0..j and j + 1..c1. */
    method SplitTable(x: Id, l: Id, r: Id, c0: byte, c1: byte) returns (j: byte)
      requires Valid() && x in has.contents && l !in has.contents && r !in has.contents && l != r
      requires c0 < c1 && InRange(has.contents[x], c0, c1)
      modifies this
      ensures Valid() && fresh(has.repr - old(has.repr))
      ensures c0 <= j < c1 && has.contents.Keys == (old(has).contents.Keys - {x}) + {l, r}
      ensures has.contents == (old(has).contents - {x})[l := has.contents[l]][r := has.contents[r]]
      ensures IsPart(has.contents[l], old(has).contents[x], c0, j)
              && IsPart(has.contents[r], old(has).contents[x], j + 1, c1)
      ensures FirstOnly(has.contents[l], c0, j)
    {
      assert Holds(x);
      var lt, rt;
      j, lt, rt := CutTable(tables[x], hash, c0, c1);
      Replace(x, l, r, lt, rt);
    }

    method Replace(x: Id, l: Id, r: Id, lt: AhTable.Table, rt: AhTable.Table)
      requires Valid() && x in has.contents && l !in has.contents && r !in has.contents && l != r
      requires lt !in has.repr && rt !in has.repr && lt != rt && HasTable(lt, lt.M, hash) && HasTable(rt, rt.M, hash)
      modifies this
      ensures Valid() && has == old(has.Replaced(x, l, r, lt, rt))
    {
      TwoForOne(tables, has, hash, x, l, r, lt, rt);
      tables := (tables - {x})[l := lt][r := rt];
      has := has.Replaced(x, l, r, lt, rt);
    }
  }

  function WithKey(table: map<Bytes, Value>, key: Bytes): map<Bytes, Value> {
    if key in table then table else table[key := Zeros()]
  }

  /** The proper split of a hybrid bucket's table, which is only read. */
  method CutTable(t: AhTable.Table, hash: AhTable.Hash, c0: byte, c1: byte)
      returns (j: byte, left: AhTable.Table, right: AhTable.Table)
    requires t.Valid() && c0 < c1 && InRange(t.M, c0, c1)
    ensures fresh(left) && fresh(right) && left != right
    ensures left.Valid() && right.Valid() && left.hash == hash && right.hash == hash
    ensures c0 <= j < c1 && IsPart(left.M, t.M, c0, j) && IsPart(right.M, t.M, j + 1, c1) && FirstOnly(left.M, c0, j)
  {
    var cs := CountFirst(t);
    j := CutPoint(cs, t, c0, c1);
    var n := SlotsFor(t.m);
    left := new AhTable.Table(hash, n);
    n := SlotsFor(t.m);
    right := new AhTable.Table(hash, n);
    Distribute(t, left, right, c0, j, c1);
  }
}
