/** The order of byte strings by which cmpkey of lib/hat-trie/src/ahtable.c sorts. */
module ByteOrder {
  import opened Basics

  predicate Less(a: Bytes, b: Bytes) {
    |b| > 0 && (|a| == 0 || a[0] < b[0] || (a[0] == b[0] && Less(a[1..], b[1..])))
  }

  lemma {:induction false} LessIsStrict(a: Bytes, b: Bytes)
    ensures !(Less(a, b) && Less(b, a))
  {
    if |a| > 0 && |b| > 0 {
      LessIsStrict(a[1..], b[1..]);
    }
  }

  lemma {:induction false} LessIsTotal(a: Bytes, b: Bytes)
    ensures a == b || Less(a, b) || Less(b, a)
  {
    if |a| > 0 && |b| > 0 {
      LessIsTotal(a[1..], b[1..]);
      assert a == [a[0]] + a[1..] && b == [b[0]] + b[1..];
    }
  }

  lemma {:induction false} LessIsTransitive(a: Bytes, b: Bytes, c: Bytes)
    requires Less(a, b) && Less(b, c)
    ensures Less(a, c)
  {
    if |a| > 0 && a[0] == b[0] == c[0] {
      LessIsTransitive(a[1..], b[1..], c[1..]);
    }
  }

  /** Two strings with a common beginning are in the order of what comes behind it. */
  lemma {:induction false} LessBehind(p: Bytes, a: Bytes, b: Bytes)
    ensures Less(p + a, p + b) <==> Less(a, b)
  {
    if |p| == 0 {
      assert p + a == a && p + b == b;
    } else {
      assert (p + a)[1..] == p[1..] + a && (p + b)[1..] == p[1..] + b;
      LessBehind(p[1..], a, b);
    }
  }

  lemma LessAt(p: Bytes, a: Bytes, b: Bytes)
    requires p < a && p < b && a[|p|] < b[|p|]
    ensures Less(a, b)
  {
    LessBehind(p, a[|p|..], b[|p|..]);
    assert a == p + a[|p|..] && b == p + b[|p|..];
  }

  // ---- cmpkey ------------------------------------------------------------------------------------------

  /** memcmp of the first n bytes: the difference of the first two that differ. */
  function MemCmp(a: Bytes, b: Bytes, n: nat): int
    requires n <= |a| && n <= |b|
  {
    if n == 0 then 0
    else if a[0] != b[0] then a[0] as int - b[0] as int
    else MemCmp(a[1..], b[1..], n - 1)
  }

  /** cmpkey on two keys: memcmp over the common length, then the difference of the lengths. */
  function CmpKey(a: Bytes, b: Bytes): int {
    var c := MemCmp(a, b, if |a| < |b| then |a| else |b|);
    if c == 0 then |a| - |b| else c
  }

  /** cmpkey compares as the byte order does, and tells all different keys apart. */
  lemma {:induction false} CmpKeyIsByteOrder(a: Bytes, b: Bytes)
    ensures CmpKey(a, b) < 0 <==> Less(a, b)
    ensures CmpKey(a, b) > 0 <==> Less(b, a)
    ensures CmpKey(a, b) == 0 <==> a == b
  {
    if |a| > 0 && |b| > 0 {
      if a[0] == b[0] {
        CmpKeyIsByteOrder(a[1..], b[1..]);
        assert a == [a[0]] + a[1..] && b == [b[0]] + b[1..];
      }
    }
  }

  // memcmp does not look behind the first n bytes.
  lemma {:induction false} MemCmpLocal(a: Bytes, b: Bytes, x: Bytes, y: Bytes, n: nat)
    requires n <= |a| && n <= |b| && n <= |x| && n <= |y| && a[..n] == x[..n] && b[..n] == y[..n]
    ensures MemCmp(a, b, n) == MemCmp(x, y, n)
  {
    if n > 0 {
      assert a[0] == a[..n][0] && b[0] == b[..n][0];
      assert a[1..][..n - 1] == a[..n][1..] && b[1..][..n - 1] == b[..n][1..];
      assert x[1..][..n - 1] == x[..n][1..] && y[1..][..n - 1] == y[..n][1..];
      MemCmpLocal(a[1..], b[1..], x[1..], y[1..], n - 1);
    }
  }

  // ---- listings ------------------------------------------------------------------------------------------

  ghost predicate Increasing(s: seq<Bytes>) {
    forall i, j :: 0 <= i < j < |s| ==> Less(s[i], s[j])
  }

  /** The keys that an iterator is to visit: each once, in byte order if sorted. */
  ghost predicate Listing(ks: seq<Bytes>, keys: set<Bytes>, sorted: bool) {
    (forall k :: k in ks <==> k in keys) && Distinct(ks) && (sorted ==> Increasing(ks))
  }
}
