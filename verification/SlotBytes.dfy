/** The packed entries of a slot of lib/hat-trie/src/ahtable.c: a length in one or two bytes, the key, the value. */
module SlotBytes {
  import opened Basics

  const MAX_KEY := 32767

  /** A key with the bytes of its value. */
  datatype Entry = Entry(key: Bytes, value: Bytes) {
    predicate Ok() { |key| <= MAX_KEY && |value| == VALUE_SIZE }
  }

  /** The first bit says whether the length takes two bytes. */
  function LengthBytes(len: nat): (r: Bytes)
    requires len <= MAX_KEY
  {
    if len < 128 then [2 * len]
    else [(2 * len + 1) % 256, (2 * len + 1) / 256]
  }

  function LengthSize(len: nat): nat { if len < 128 then 1 else 2 }

  /** keylen of the source, at the start of an entry. */
  function KeyLen(s: Bytes): nat
    requires |s| > 0 && (s[0] % 2 == 1 ==> |s| > 1)
  {
    var lo: int := s[0];
    if lo % 2 == 1 then
      var hi: int := s[1];
      (lo + 256 * hi) / 2
    else lo / 2
  }

  function Pack(e: Entry): Bytes
    requires |e.key| <= MAX_KEY
  {
    LengthBytes(|e.key|) + e.key + e.value
  }

  function PackSize(e: Entry): nat { LengthSize(|e.key|) + |e.key| + VALUE_SIZE }

  ghost predicate AllOk(es: seq<Entry>) {
    forall i :: 0 <= i < |es| ==> es[i].Ok()
  }

  function PackAll(es: seq<Entry>): Bytes
    requires AllOk(es)
  {
    if |es| == 0 then [] else Pack(es[0]) + PackAll(es[1..])
  }

  /** The length is read back, whatever follows. */
  lemma LengthReadBack(len: nat, rest: Bytes)
    requires len <= MAX_KEY
    ensures var s := LengthBytes(len) + rest;
            |LengthBytes(len)| == LengthSize(len) && (s[0] % 2 == 1 ==> |s| > 1) && KeyLen(s) == len
  {
  }

  lemma PartsOf(a: Bytes, b: Bytes, c: Bytes, d: Bytes)
    ensures var s := a + b + c + d;
            && s[|a|..|a| + |b|] == b && s[|a| + |b|..|a| + |b| + |c|] == c && s[|a| + |b| + |c|..] == d
            && s == a + (b + c + d)
  {
  }

  /** The entry at the start of packed bytes: its parts lie where the walk over the slot looks for them. */
  lemma FirstEntry(e: Entry, rest: Bytes)
    requires e.Ok()
    ensures var s := Pack(e) + rest; var n, k := LengthSize(|e.key|), |e.key|;
            && |Pack(e)| == PackSize(e) && |s| == PackSize(e) + |rest|
            && (s[0] % 2 == 1 ==> |s| > 1) && KeyLen(s) == k
            && s[n..n + k] == e.key && s[n + k..n + k + VALUE_SIZE] == e.value && s[n + k + VALUE_SIZE..] == rest
  {
    var l := LengthBytes(|e.key|);
    LengthReadBack(|e.key|, e.key + e.value + rest);
    PartsOf(l, e.key, e.value, rest);
    assert Pack(e) + rest == l + e.key + e.value + rest;
  }

  lemma NotEmpty(es: seq<Entry>)
    requires AllOk(es)
    ensures |es| > 0 ==> |PackAll(es)| > 0
  {
    if |es| > 0 {
      FirstEntry(es[0], PackAll(es[1..]));
    }
  }

  /** Packed bytes say which entries they hold. */
  lemma {:induction false} PackedUniquely(es: seq<Entry>, fs: seq<Entry>)
    requires AllOk(es) && AllOk(fs) && PackAll(es) == PackAll(fs)
    ensures es == fs
  {
    NotEmpty(es);
    NotEmpty(fs);
    if |es| > 0 && |fs| > 0 {
      FirstEntry(es[0], PackAll(es[1..]));
      FirstEntry(fs[0], PackAll(fs[1..]));
      SameFirst(es[0], PackAll(es[1..]), fs[0], PackAll(fs[1..]));
      PackedUniquely(es[1..], fs[1..]);
      assert es == [es[0]] + es[1..] && fs == [fs[0]] + fs[1..];
    }
  }

  lemma SameFirst(e: Entry, r: Bytes, f: Entry, t: Bytes)
    requires e.Ok() && f.Ok() && Pack(e) + r == Pack(f) + t
    ensures e == f && r == t
  {
    FirstEntry(e, r);
    FirstEntry(f, t);
  }

  lemma {:induction false} PackSplit(es: seq<Entry>, i: nat)
    requires AllOk(es) && i <= |es|
    ensures PackAll(es) == PackAll(es[..i]) + PackAll(es[i..])
  {
    if i == 0 {
      assert es[i..] == es;
    } else {
      PackSplit(es[1..], i - 1);
      assert es[1..][..i - 1] == es[..i][1..] && es[1..][i - 1..] == es[i..];
    }
  }

  lemma PackOne(e: Entry)
    requires e.Ok()
    ensures PackAll([e]) == Pack(e)
  {
  }

  lemma {:induction false} PackConcat(es: seq<Entry>, fs: seq<Entry>)
    requires AllOk(es) && AllOk(fs)
    ensures AllOk(es + fs) && PackAll(es + fs) == PackAll(es) + PackAll(fs)
  {
    if |es| == 0 {
      assert es + fs == fs;
    } else {
      PackConcat(es[1..], fs);
      assert (es + fs)[1..] == es[1..] + fs;
    }
  }

  /** Position of entry i in the slot. */
  function Offset(es: seq<Entry>, i: nat): nat
    requires AllOk(es) && i <= |es|
  {
    |PackAll(es[..i])|
  }

  // The slot before, at and behind entry i.
  lemma AroundEntry(es: seq<Entry>, i: nat)
    requires AllOk(es) && i < |es|
    ensures var a, rest := PackAll(es[..i]), PackAll(es[i + 1..]);
            && PackAll(es) == a + (Pack(es[i]) + rest) && |Pack(es[i])| == PackSize(es[i])
            && Offset(es, i) == |a| && Offset(es, i + 1) == |a| + PackSize(es[i])
  {
    PackSplit(es, i);
    assert es[i..][0] == es[i] && es[i..][1..] == es[i + 1..];
    PackConcat(es[..i], [es[i]]);
    PackOne(es[i]);
    assert es[..i + 1] == es[..i] + [es[i]];
    FirstEntry(es[i], PackAll(es[i + 1..]));
  }

  /** What the walk over a slot finds at position s: entry e. */
  ghost predicate EntryAt(slot: Bytes, s: nat, e: Entry) {
    var n, k := LengthSize(|e.key|), |e.key|;
    && s + PackSize(e) <= |slot| && (slot[s] % 2 == 1 ==> s + 1 < |slot|) && KeyLen(slot[s..]) == k
    && slot[s + n..s + n + k] == e.key && slot[s + n + k..s + n + k + VALUE_SIZE] == e.value
  }

  lemma EntryBehind(a: Bytes, e: Entry, rest: Bytes)
    requires e.Ok()
    ensures EntryAt(a + (Pack(e) + rest), |a|, e)
  {
    var here := Pack(e) + rest;
    var n, k := LengthSize(|e.key|), |e.key|;
    FirstEntry(e, rest);
    Behind(a, here, 0, n);
    Behind(a, here, n, n + k);
    Behind(a, here, n + k, n + k + VALUE_SIZE);
    assert (a + here)[|a|] == here[0];
  }

  lemma AtEntry(es: seq<Entry>, i: nat)
    requires AllOk(es) && i < |es|
    ensures EntryAt(PackAll(es), Offset(es, i), es[i]) && Offset(es, i + 1) == Offset(es, i) + PackSize(es[i])
  {
    AroundEntry(es, i);
    EntryBehind(PackAll(es[..i]), es[i], PackAll(es[i + 1..]));
  }

  lemma Behind(a: Bytes, b: Bytes, i: nat, j: nat)
    requires i <= j <= |b|
    ensures (a + b)[|a|..] == b && (a + b)[|a| + i..|a| + j] == b[i..j]
  {
  }
}
