/** The last block of hexfour in lib/perfect/perfhex.c: three bits and a multiplier. */
module HexGuns {
  import opened Basics
  import opened HexCode
  import opened HexFour
  import opened HexThree
  import opened Words

  // The values built from two and from three bits of a key.
  function Two(k: ub4, i: nat, j: nat): nat {
    Xor(And(Shr(k, i), 1), Shl(And(Shr(k, j), 1), 1))
  }

  function Three(k: ub4, i: nat, j: nat, l: nat): nat {
    Xor(Two(k, i, j), Shl(And(Shr(k, l), 1), 2))
  }

  lemma ShlOfBit(x: nat)
    requires x < 2
    ensures Shl(x, 1) == Pair(false, x == 1)
    ensures Shl(x, 2) == if x == 1 then 4 else 0
  {
    assert Pow2(1) == 2 && Pow2(2) == 4;
  }

  lemma TwoIs(k: ub4, i: nat, j: nat)
    ensures Two(k, i, j) == Pair(Bit(k, i), Bit(k, j))
  {
    Fields(k, i);
    Fields(k, j);
    ShlOfBit(And(Shr(k, j), 1));
    XorOfPairs(Bit(k, i), false, false, Bit(k, j));
  }

  lemma XorWithFour(x: nat)
    requires x < 4
    ensures Xor(x, 4) == x + 4 && Xor(x, 0) == x
  {
    XorZero(x);
    assert Xor(x / 2 / 2, 1) == 1;
    assert Xor(x / 2, 2) == x / 2 + 2;
  }

  lemma ThreeIs(k: ub4, i: nat, j: nat, l: nat)
    ensures Three(k, i, j, l) == Pair(Bit(k, i), Bit(k, j)) + if Bit(k, l) then 4 else 0
  {
    TwoIs(k, i, j);
    Fields(k, l);
    ShlOfBit(And(Shr(k, l), 1));
    XorWithFour(Two(k, i, j));
  }

  /** Bits m and n of k, to each of which multiplier q may add bit o. */
  function Lo(q: nat, k: ub4, m: nat, o: nat): bool { Bit(k, m) != (q % 2 == 1 && Bit(k, o)) }
  function Hi(q: nat, k: ub4, n: nat, o: nat): bool { Bit(k, n) != (q >= 2 && Bit(k, o)) }
  function Aimed(q: nat, k: ub4, m: nat, n: nat, o: nat): nat { Pair(Lo(q, k, m, o), Hi(q, k, n, o)) }

  predicate Hits(q: nat, a: ub4, b: ub4, c: ub4, d: ub4, m: nat, n: nat, o: nat) {
    Permutation(Aimed(q, a, m, n, o), Aimed(q, b, m, n, o), Aimed(q, c, m, n, o), Aimed(q, d, m, n, o))
  }

  function Ones(a: ub4, b: ub4, c: ub4, d: ub4, i: nat): nat {
    And(Shr(a, i), 1) + And(Shr(b, i), 1) + And(Shr(c, i), 1) + And(Shr(d, i), 1)
  }

  predicate Unbalanced(p: bool, q: bool, r: bool, s: bool) {
    (p && q && r && s) || (!p && !q && !r && !s)
    || (p != q && q == r && r == s) || (q != p && p == r && r == s)
    || (r != p && p == q && q == s) || (s != p && p == q && q == r)
  }

  lemma OnesIs(a: ub4, b: ub4, c: ub4, d: ub4, i: nat)
    ensures Ones(a, b, c, d, i) != 2 <==> Unbalanced(Bit(a, i), Bit(b, i), Bit(c, i), Bit(d, i))
  {
    Fields(a, i);
    Fields(b, i);
    Fields(c, i);
    Fields(d, i);
  }

  predicate Alike(k: ub4, l: ub4, i: nat, j: nat, t: nat) {
    Bit(k, i) == Bit(l, i) && Bit(k, j) == Bit(l, j) && Bit(k, t) == Bit(l, t)
  }

  /** No two of the keys agree on all of the bits i, j and t. */
  predicate Tells4By3(a: ub4, b: ub4, c: ub4, d: ub4, i: nat, j: nat, t: nat) {
    && !Alike(a, b, i, j, t) && !Alike(a, c, i, j, t) && !Alike(a, d, i, j, t)
    && !Alike(b, c, i, j, t) && !Alike(b, d, i, j, t) && !Alike(c, d, i, j, t)
  }

  lemma ThreeSeparates(a: ub4, b: ub4, c: ub4, d: ub4, i: nat, j: nat, t: nat)
    ensures Distinct4(Three(a, i, j, t), Three(b, i, j, t), Three(c, i, j, t), Three(d, i, j, t))
       <==> Tells4By3(a, b, c, d, i, j, t)
  {
    ThreeIs(a, i, j, t);
    ThreeIs(b, i, j, t);
    ThreeIs(c, i, j, t);
    ThreeIs(d, i, j, t);
  }

  /** Four points of the cube: if bit o is split 1-3 (or 0-4) some multiplier of it separates them. */
  lemma SomeMultiplierHits(a: ub4, b: ub4, c: ub4, d: ub4, m: nat, n: nat, o: nat)
    requires Tells4By3(a, b, c, d, m, n, o)
    requires Unbalanced(Bit(a, o), Bit(b, o), Bit(c, o), Bit(d, o))
    ensures Hits(0, a, b, c, d, m, n, o) || Hits(1, a, b, c, d, m, n, o)
         || Hits(2, a, b, c, d, m, n, o) || Hits(3, a, b, c, d, m, n, o)
  {
  }

  /** If no two bits tell the keys apart, then of three that do the first or the second is unbalanced. */
  lemma SomeBitIsUnbalanced(a: ub4, b: ub4, c: ub4, d: ub4, i: nat, j: nat, k: nat)
    requires Tells4By3(a, b, c, d, i, j, k)
    requires !Tells4(a, b, c, d, i, j) && !Tells4(a, b, c, d, i, k) && !Tells4(a, b, c, d, j, k)
    ensures Unbalanced(Bit(a, i), Bit(b, i), Bit(c, i), Bit(d, i))
         || Unbalanced(Bit(a, j), Bit(b, j), Bit(c, j), Bit(d, j))
  {
  }

  // Emitted text for bit positions.
  function V(i: nat): Expr { ShiftR(Val, i) }

  function Code1(m: nat, n: nat, o: nat): Code
    requires 0 < n
  {
    var (m, o) := if m > o then (o, m) else (m, o);
    if m == 0 then
      One(XorE(Mask(XorE(Val, V(o)), 1), Mask(V(n - 1), 2)))
    else
      One(XorE(Mask(XorE(V(m), V(o)), 1), Mask(V(n - 1), 2)))
  }

  function Code2(m: nat, n: nat, o: nat): Code
    requires m < n && m != o && n != o
  {
    var (n, o) := if m + 1 == o then (o, n) else (n, o);
    if m == 0 then
      One(XorE(Mask(Val, 1), Mask(XorE(V(n - 1), V(o - 1)), 2)))
    else if o == 0 then
      One(XorE(Mask(V(m - 1), 2), Mask(XorE(V(n), Val), 1)))
    else
      One(XorE(Mask(V(m), 1), Mask(XorE(V(n - 1), V(o - 1)), 2)))
  }

  function Code3(m: nat, n: nat, o: nat): Code
    requires m < n && m != o && n != o
  {
    var separately := WithB(Mask(V(o), 1), XorE(XorE(XorE(Mask(V(m), 1), Mask(V(n - 1), 2)), B), ShiftL(B, 1)));
    if m + 1 == o || m == n - 1 || o == n - 1 then
      Neighbours(m, n, o)
    else if m + 1 != o && m != n - 1 && o + 1 != m && o != n - 1 then
      Isolated(m, n, o)
    else if o + 1 == m then
      Adjacent(m, n, o)
    else
      separately
  }

  // Bit m is just below bit o, or one of them just below bit n.
  function Neighbours(m: nat, n: nat, o: nat): Code
    requires m < n && m != o && n != o && (m + 1 == o || m == n - 1 || o == n - 1)
  {
    var b := Mask(V(o), 1);
    if m + 1 == o && m == 0 then
      WithB(b, XorE(XorE(Mask(Val, 3), Mask(V(n - 1), 2)), B))
    else if m + 1 == o then
      WithB(b, XorE(XorE(Mask(V(m), 3), Mask(V(n - 1), 2)), B))
    else if m == n - 1 && m == 0 then
      WithB(b, XorE(XorE(Mask(Val, 3), B), ShiftL(B, 1)))
    else if m == n - 1 then
      WithB(b, XorE(XorE(Mask(V(m), 3), B), ShiftL(B, 1)))
    else if m == 0 then
      WithB(b, XorE(XorE(Mask(Val, 1), Mask(V(o), 3)), ShiftL(B, 1)))
    else
      WithB(b, XorE(XorE(Mask(V(m), 1), Mask(V(o), 3)), ShiftL(B, 1)))
  }

  function ThreeBitMask(m: nat, n: nat, o: nat): nat {
    Xor(Xor(Pow2(m), Pow2(n)), Pow2(o))
  }

  // No two of the bits are neighbours: blank the others and negate bit o to multiply it by 3.
  function Isolated(m: nat, n: nat, o: nat): Code
    requires 0 < n
  {
    var b := if o == 0 then MinusE(Num(0), NewVal) else MinusE(Num(0), ShiftR(NewVal, o));
    var low := if m == 0 then NewVal else ShiftR(NewVal, m);
    WithNewVal(Mask(Val, ThreeBitMask(m, n, o)), b, Mask(XorE(XorE(low, ShiftR(NewVal, n - 1)), B), 3))
  }

  // Bit o is just below bit m: one field holds both.
  function Adjacent(m: nat, n: nat, o: nat): Code {
    var b := if o == 0 then Mask(ShiftL(Val, 1), 2) else if o == 1 then Mask(Val, 2) else Mask(V(o - 1), 2);
    var field := if o == 0 then Mask(Val, 3) else Mask(V(o), 3);
    WithB(b, XorE(XorE(field, Mask(V(n), 1)), B))
  }

  /** The code computes the value aimed at, perhaps with its two bits exchanged. */
  ghost predicate Computes(code: Code, q: nat, m: nat, n: nat, o: nat, exchanged: bool) {
    forall k: ub4 :: Run(code, k) == if exchanged then Pair(Hi(q, k, n, o), Lo(q, k, m, o)) else Aimed(q, k, m, n, o)
  }

  lemma ComputesWorks(code: Code, q: nat, m: nat, n: nat, o: nat, x: bool, a: ub4, b: ub4, c: ub4, d: ub4)
    requires Defined(code) && Computes(code, q, m, n, o, x) && Hits(q, a, b, c, d, m, n, o)
    ensures Works(code, a, b, c, d)
  {
  }

  lemma XorFieldBits(k: ub4, i: nat, j: nat)
    ensures And(Xor(Shr(k, i), Shr(k, j)), 1) == Pair(Bit(k, i) != Bit(k, j), false)
    ensures And(Xor(Shr(k, i), Shr(k, j)), 2) == Pair(false, Bit(k, i + 1) != Bit(k, j + 1))
  {
    var x := Xor(Shr(k, i), Shr(k, j));
    Masks(x);
    BitOfXor(Shr(k, i), Shr(k, j), 0);
    BitOfXor(Shr(k, i), Shr(k, j), 1);
    ShrShr(k, i, 1);
    ShrShr(k, j, 1);
  }

  lemma Code1Computes(m: nat, n: nat, o: nat)
    requires m < n < 32 && o < 32 && m != o && n != o
    ensures Defined(Code1(m, n, o)) && Computes(Code1(m, n, o), 1, m, n, o, false)
  {
    Unfold();
    forall k: ub4
      ensures Run(Code1(m, n, o), k) == Aimed(1, k, m, n, o)
    {
      var (m', o') := if m > o then (o, m) else (m, o);
      XorFieldBits(k, m', o');
      Fields(k, n - 1);
      XorOfPairs(Bit(k, m') != Bit(k, o'), false, false, Bit(k, n));
    }
  }

  lemma {:induction false} PairRuns(x: Expr, y: Expr, z: Expr, k: ub4)
    ensures var env := Env(k, 0, 0);
            Run(One(XorE(Mask(x, 1), Mask(XorE(y, z), 2))), k)
            == Xor(And(Eval(x, env), 1), And(Xor(Eval(y, env), Eval(z, env)), 2))
  {
    Unfold();
  }

  lemma TwoFields(k: ub4, m: nat, n: nat, o: nat)
    requires n > 0 && o > 0
    ensures Xor(And(Shr(k, m), 1), And(Xor(Shr(k, n - 1), Shr(k, o - 1)), 2)) == Pair(Bit(k, m), Bit(k, n) != Bit(k, o))
  {
    XorFieldBits(k, n - 1, o - 1);
    Fields(k, m);
    XorOfPairs(Bit(k, m), false, false, Bit(k, n) != Bit(k, o));
  }

  lemma AimedAtTwo(k: ub4, m: nat, n: nat, o: nat)
    ensures Aimed(2, k, m, n, o) == Pair(Bit(k, m), Bit(k, n) != Bit(k, o)) == Aimed(2, k, m, o, n)
  {
  }

  lemma Code2Runs(k: ub4, m: nat, n: nat, o: nat)
    requires m < n < 32 && o < 32 && m != o && n != o && (m == 0 || o != 0 || m + 1 == o)
    ensures Run(Code2(m, n, o), k) == Aimed(2, k, m, n, o)
  {
    var (n', o') := if m + 1 == o then (o, n) else (n, o);
    AimedAtTwo(k, m, n', o');
    TwoFields(k, m, n', o');
    var x := if m == 0 then Val else V(m);
    PairRuns(x, V(n' - 1), V(o' - 1), k);
    assert Eval(x, Env(k, 0, 0)) == Shr(k, m);
  }

  lemma Code2RunsAtZero(k: ub4, m: nat, n: nat)
    requires 0 < m < n < 32
    ensures Run(Code2(m, n, 0), k) == Pair(Hi(2, k, n, 0), Lo(2, k, m, 0))
  {
    assert Run(Code2(m, n, 0), k) == Xor(And(Shr(k, m - 1), 2), And(Xor(Shr(k, n), Shr(k, 0)), 1)) by { Unfold(); }
    XorFieldBits(k, n, 0);
    Fields(k, m - 1);
    XorOfPairs(false, Bit(k, m), Bit(k, n) != Bit(k, 0), false);
  }

  lemma Code2Computes(m: nat, n: nat, o: nat)
    requires m < n < 32 && o < 32 && m != o && n != o
    ensures Defined(Code2(m, n, o))
    ensures Computes(Code2(m, n, o), 2, m, n, o, m + 1 != o && m != 0 && o == 0)
  {
    assert Defined(Code2(m, n, o)) by { Unfold(); }
    if m != 0 && o == 0 {
      forall k: ub4 ensures Run(Code2(m, n, o), k) == Pair(Hi(2, k, n, o), Lo(2, k, m, o)) { Code2RunsAtZero(k, m, n); }
    } else {
      forall k: ub4 ensures Run(Code2(m, n, o), k) == Aimed(2, k, m, n, o) { Code2Runs(k, m, n, o); }
    }
  }

  lemma ThreeBitMaskIs(m: nat, n: nat, o: nat, t: nat)
    requires m < 32 && n < 32 && o < 32 && m != n && m != o && n != o
    ensures ThreeBitMask(m, n, o) < WORD
    ensures Bit(ThreeBitMask(m, n, o), t) <==> t == m || t == n || t == o
  {
    Pow2Word();
    Pow2Less(m, 32);
    Pow2Less(n, 32);
    Pow2Less(o, 32);
    XorBound(Pow2(m), Pow2(n), 32);
    XorBound(Xor(Pow2(m), Pow2(n)), Pow2(o), 32);
    BitOfPow2(m, t);
    BitOfXorPow2(Pow2(m), n, t);
    BitOfXorPow2(Xor(Pow2(m), Pow2(n)), o, t);
  }

  lemma LowPairOfXor(x: nat, y: nat)
    ensures And(Xor(x, y), 3) == Pair(Bit(x, 0) != Bit(y, 0), Bit(x, 1) != Bit(y, 1))
  {
    Masks(Xor(x, y));
    BitOfXor(x, y, 0);
    BitOfXor(x, y, 1);
  }

  lemma LowBitsOfShift(x: nat, i: nat)
    ensures Bit(Shr(x, i), 0) == Bit(x, i) && Bit(Shr(x, i), 1) == Bit(x, i + 1)
  {
    ShrShr(x, i, 1);
  }

  // negating a word whose two low bits are 0 or 1 gives low bits 0 or 3
  lemma Negated(x: nat)
    requires !Bit(x, 1)
    ensures Bit(Minus(0, x), 0) == Bit(x, 0) && Bit(Minus(0, x), 1) == Bit(x, 0)
  {
    Masks(x);
    WordKeepsResidue(0 - x);
    Quads(0 - x, 0 - x / 4, 0 - x % 4);
    Masks(Minus(0, x));
  }

  lemma BlankedBit(k: ub4, m: nat, n: nat, o: nat, t: nat)
    requires m < 32 && n < 32 && o < 32 && m != n && m != o && n != o
    ensures Bit(And(k, ThreeBitMask(m, n, o)), t) <==> Bit(k, t) && (t == m || t == n || t == o)
  {
    ThreeBitMaskIs(m, n, o, t);
    BitOfAnd(k, ThreeBitMask(m, n, o), t);
  }

  lemma IsolatedRuns(k: ub4, m: nat, n: nat, o: nat)
    requires m < n < 32 && o < 32 && m != o && n != o
    requires m + 1 != o && m != n - 1 && o + 1 != m && o != n - 1
    ensures Run(Isolated(m, n, o), k) == Aimed(3, k, m, n, o)
  {
    Unfold();
    var nv := And(k, ThreeBitMask(m, n, o));
    BlankedBit(k, m, n, o, m);
    BlankedBit(k, m, n, o, m + 1);
    BlankedBit(k, m, n, o, n - 1);
    BlankedBit(k, m, n, o, n);
    BlankedBit(k, m, n, o, o);
    BlankedBit(k, m, n, o, o + 1);
    var low, mid, b := Shr(nv, m), Shr(nv, n - 1), Minus(0, Shr(nv, o));
    LowBitsOfShift(nv, m);
    LowBitsOfShift(nv, n - 1);
    LowBitsOfShift(nv, o);
    Negated(Shr(nv, o));
    LowPairOfXor(Xor(low, mid), b);
    BitOfXor(low, mid, 0);
    BitOfXor(low, mid, 1);
    assert Run(Isolated(m, n, o), k) == And(Xor(Xor(low, mid), b), 3);
  }

  lemma IsolatedDefined(m: nat, n: nat, o: nat)
    requires m < n < 32 && o < 32 && m != o && n != o
    ensures Defined(Isolated(m, n, o))
  {
    Unfold();
    ThreeBitMaskIs(m, n, o, 0);
  }

  lemma AdjacentRuns(k: ub4, m: nat, n: nat, o: nat)
    requires n < 32 && o + 1 == m < n
    ensures Defined(Adjacent(m, n, o))
    ensures Run(Adjacent(m, n, o), k) == Pair(Hi(3, k, n, o), Lo(3, k, m, o))
  {
    Unfold();
    Fields(k, o);
    Fields(k, n);
    var b := Pair(false, Bit(k, o));
    if o == 0 {
      DoubledBit(k);
    } else {
      Fields(k, o - 1);
    }
    XorOfPairs(Bit(k, o), Bit(k, m), Bit(k, n), false);
    XorOfPairs(Bit(k, o) != Bit(k, n), Bit(k, m), false, Bit(k, o));
    assert Run(Adjacent(m, n, o), k) == Xor(Xor(And(Shr(k, o), 3), And(Shr(k, n), 1)), b);
  }

  lemma DoubledBit(k: ub4)
    ensures And(Shl(k, 1), 2) == Pair(false, Bit(k, 0))
  {
    var x := Shl(k, 1);
    assert Pow2(1) == 2;
    Masks(x);
    WordKeepsResidue(k * 2);
    assert x % 4 == (k * 2) % 4;
    Quads(k * 2, k / 2, 2 * (k % 2));
  }

  lemma FieldsOfThree(k: ub4, m: nat, n: nat, o: nat)
    requires 0 < n
    ensures And(Shr(k, m), 1) == Pair(Bit(k, m), false) && And(Shr(k, m), 3) == Pair(Bit(k, m), Bit(k, m + 1))
    ensures And(Shr(k, n - 1), 2) == Pair(false, Bit(k, n))
    ensures And(Shr(k, o), 1) == Pair(Bit(k, o), false) && And(Shr(k, o), 3) == Pair(Bit(k, o), Bit(k, o + 1))
    ensures Shl(And(Shr(k, o), 1), 1) == Pair(false, Bit(k, o))
  {
    Fields(k, m);
    Fields(k, n - 1);
    Fields(k, o);
    ShlOfBit(And(Shr(k, o), 1));
  }

  lemma Code3BelowO(k: ub4, m: nat, n: nat, o: nat)
    requires m < n < 32 && o < 32 && n != o && m + 1 == o
    ensures Run(Code3(m, n, o), k) == Aimed(3, k, m, n, o)
  {
    FieldsOfThree(k, m, n, o);
    var M, N, O := Bit(k, m), Bit(k, n), Bit(k, o);
    XorOfPairs(M, O, false, N);
    XorOfPairs(M, O != N, O, false);
    assert Run(Code3(m, n, o), k)
           == Xor(Xor(And(Shr(k, m), 3), And(Shr(k, n - 1), 2)), And(Shr(k, o), 1)) by { Unfold(); }
  }

  lemma Code3BelowN(k: ub4, m: nat, n: nat, o: nat)
    requires m + 1 == n < 32 && o < 32 && m != o && n != o
    ensures Run(Code3(m, n, o), k) == Aimed(3, k, m, n, o)
  {
    FieldsOfThree(k, m, n, o);
    var M, N, O := Bit(k, m), Bit(k, n), Bit(k, o);
    XorOfPairs(M, N, O, false);
    XorOfPairs(M != O, N, false, O);
    assert Run(Code3(m, n, o), k)
           == Xor(Xor(And(Shr(k, m), 3), And(Shr(k, o), 1)), Shl(And(Shr(k, o), 1), 1)) by { Unfold(); }
  }

  lemma Code3OBelowN(k: ub4, m: nat, n: nat, o: nat)
    requires m < n < 32 && o < 32 && m != o && o == n - 1 && m + 1 != o
    ensures Run(Code3(m, n, o), k) == Aimed(3, k, m, n, o)
  {
    FieldsOfThree(k, m, n, o);
    var M, N, O := Bit(k, m), Bit(k, n), Bit(k, o);
    XorOfPairs(M, false, O, N);
    XorOfPairs(M != O, N, false, O);
    assert Run(Code3(m, n, o), k)
           == Xor(Xor(And(Shr(k, m), 1), And(Shr(k, o), 3)), Shl(And(Shr(k, o), 1), 1)) by { Unfold(); }
  }

  lemma Code3Computes(m: nat, n: nat, o: nat)
    requires m < n < 32 && o < 32 && m != o && n != o
    ensures Defined(Code3(m, n, o))
    ensures Computes(Code3(m, n, o), 3, m, n, o, m + 1 != o && m != n - 1 && o != n - 1 && o + 1 == m)
  {
    if m + 1 == o || m == n - 1 || o == n - 1 {
      Unfold();
      forall k: ub4
        ensures Run(Code3(m, n, o), k) == Aimed(3, k, m, n, o)
      {
        if m + 1 == o {
          Code3BelowO(k, m, n, o);
        } else if m == n - 1 {
          Code3BelowN(k, m, n, o);
        } else {
          Code3OBelowN(k, m, n, o);
        }
      }
    } else if o + 1 == m {
      forall k: ub4 ensures Run(Code3(m, n, o), k) == Pair(Hi(3, k, n, o), Lo(3, k, m, o)) { AdjacentRuns(k, m, n, o); }
      AdjacentRuns(0, m, n, o);
    } else {
      IsolatedDefined(m, n, o);
      forall k: ub4 ensures Run(Code3(m, n, o), k) == Aimed(3, k, m, n, o) { IsolatedRuns(k, m, n, o); }
    }
  }

  // What the last block tests, multiplying bit o by 1, 2, 3 and 0.
  function Test1(k: ub4, m: nat, n: nat, o: nat): nat
    requires 0 < n
  {
    Xor(And(Xor(Shr(k, m), Shr(k, o)), 1), And(Shr(k, n - 1), 2))
  }

  function Test2(k: ub4, m: nat, n: nat, o: nat): nat {
    Xor(And(Shr(k, m), 1), Shl(And(Xor(Shr(k, n), Shr(k, o)), 1), 1))
  }

  function Test3(k: ub4, m: nat, n: nat, o: nat): nat
    requires 0 < n
  {
    Xor(Xor(Xor(And(Shr(k, m), 1), And(Shr(k, n - 1), 2)), And(Shr(k, o), 1)), Shl(And(Shr(k, o), 1), 1))
  }

  lemma TestsAim(k: ub4, m: nat, n: nat, o: nat)
    requires 0 < n
    ensures Test1(k, m, n, o) == Aimed(1, k, m, n, o)
    ensures Test2(k, m, n, o) == Aimed(2, k, m, n, o)
    ensures Test3(k, m, n, o) == Aimed(3, k, m, n, o)
  {
    FieldsOfThree(k, m, n, o);
    XorFieldBits(k, m, o);
    XorFieldBits(k, n, o);
    ShlOfBit(And(Xor(Shr(k, n), Shr(k, o)), 1));
    var M, N, O := Bit(k, m), Bit(k, n), Bit(k, o);
    XorOfPairs(M != O, false, false, N);
    XorOfPairs(M, false, false, N != O);
    XorOfPairs(M, false, false, N);
    XorOfPairs(M, N, O, false);
    XorOfPairs(M != O, N, false, O);
  }

  lemma Test1MeansHit(a: ub4, b: ub4, c: ub4, d: ub4, m: nat, n: nat, o: nat)
    requires 0 < n
    ensures TestFour(Test1(a, m, n, o), Test1(b, m, n, o), Test1(c, m, n, o), Test1(d, m, n, o))
            <==> Hits(1, a, b, c, d, m, n, o)
  {
    TestsAim(a, m, n, o);
    TestsAim(b, m, n, o);
    TestsAim(c, m, n, o);
    TestsAim(d, m, n, o);
  }

  lemma Test2MeansHit(a: ub4, b: ub4, c: ub4, d: ub4, m: nat, n: nat, o: nat)
    requires 0 < n
    ensures TestFour(Test2(a, m, n, o), Test2(b, m, n, o), Test2(c, m, n, o), Test2(d, m, n, o))
            <==> Hits(2, a, b, c, d, m, n, o)
  {
    TestsAim(a, m, n, o);
    TestsAim(b, m, n, o);
    TestsAim(c, m, n, o);
    TestsAim(d, m, n, o);
  }

  lemma Test3MeansHit(a: ub4, b: ub4, c: ub4, d: ub4, m: nat, n: nat, o: nat)
    requires 0 < n
    ensures TestFour(Test3(a, m, n, o), Test3(b, m, n, o), Test3(c, m, n, o), Test3(d, m, n, o))
            <==> Hits(3, a, b, c, d, m, n, o)
  {
    TestsAim(a, m, n, o);
    TestsAim(b, m, n, o);
    TestsAim(c, m, n, o);
    TestsAim(d, m, n, o);
  }

  // Two bits that do not tell the keys apart, in either order.
  ghost predicate NoTwoBitsTell(a: ub4, b: ub4, c: ub4, d: ub4) {
    forall p: nat, q: nat :: p < q ==> !Tells4(a, b, c, d, p, q)
  }

  lemma NeitherOrderTells(a: ub4, b: ub4, c: ub4, d: ub4, p: nat, q: nat)
    requires NoTwoBitsTell(a, b, c, d)
    ensures !Tells4(a, b, c, d, p, q)
  {
    if q < p {
      assert !Tells4(a, b, c, d, q, p);
    }
  }

  lemma SomeBitSeparatesThird(b: ub4, c: ub4, d: ub4, i: nat) returns (t: nat)
    requires Distinct3(b, c, d) && Bit(c, i) != Bit(d, i)
    ensures t < 32 && Distinct3(Two(b, i, t), Two(c, i, t), Two(d, i, t))
  {
    if Bit(b, i) == Bit(c, i) {
      t := DifferAt(b, c);
    } else {
      t := DifferAt(b, d);
    }
    TwoIs(b, i, t);
    TwoIs(c, i, t);
    TwoIs(d, i, t);
  }

  lemma SomeBitSeparatesFourth(a: ub4, b: ub4, c: ub4, d: ub4, i: nat, j: nat) returns (t: nat)
    requires Distinct4(a, b, c, d) && Distinct3(Two(b, i, j), Two(c, i, j), Two(d, i, j))
    ensures t < 32 && Tells4By3(a, b, c, d, i, j, t)
  {
    TwoIs(a, i, j);
    TwoIs(b, i, j);
    TwoIs(c, i, j);
    TwoIs(d, i, j);
    if Two(a, i, j) == Two(b, i, j) {
      t := DifferAt(a, b);
    } else if Two(a, i, j) == Two(c, i, j) {
      t := DifferAt(a, c);
    } else {
      t := DifferAt(a, d);
    }
  }

  lemma BitsThatTellAreInSpan(a: ub4, b: ub4, c: ub4, d: ub4, s: Span, t: nat)
    requires s.Covers([a, b, c, d])
    requires Bit(a, t) != Bit(b, t) || Bit(b, t) != Bit(c, t) || Bit(c, t) != Bit(d, t)
    ensures s.lowbit <= t < 32
  {
    DiffBitsOfFour(a, b, c, d, s, t);
  }

  lemma FirstBit(c: ub4, d: ub4, t: nat)
    ensures And(Shr(c, t), 1) != And(Shr(d, t), 1) <==> Bit(c, t) != Bit(d, t)
  {
    Fields(c, t);
    Fields(d, t);
  }

  lemma SecondBit(b: ub4, c: ub4, d: ub4, i: nat, t: nat)
    requires Bit(c, i) != Bit(d, i) && Distinct3(Two(b, i, t), Two(c, i, t), Two(d, i, t))
    ensures i != t && (Bit(b, t) != Bit(c, t) || Bit(c, t) != Bit(d, t))
  {
    TwoIs(b, i, t);
    TwoIs(c, i, t);
    TwoIs(d, i, t);
  }

  lemma ThirdBit(a: ub4, b: ub4, c: ub4, d: ub4, i: nat, j: nat, t: nat)
    requires !Tells4(a, b, c, d, i, j)
    requires Distinct3(Two(b, i, j), Two(c, i, j), Two(d, i, j)) && Tells4By3(a, b, c, d, i, j, t)
    ensures t != i && t != j && (Bit(a, t) != Bit(b, t) || Bit(b, t) != Bit(c, t) || Bit(c, t) != Bit(d, t))
  {
    TwoIs(a, i, j);
    TwoIs(b, i, j);
    TwoIs(c, i, j);
    TwoIs(d, i, j);
  }

  method FindThirdBit(a: ub4, b: ub4, c: ub4, d: ub4, s: Span, i: nat, j: nat) returns (k: nat)
    requires s.Covers([a, b, c, d]) && Distinct4(a, b, c, d) && !Tells4(a, b, c, d, i, j)
    requires Distinct3(Two(b, i, j), Two(c, i, j), Two(d, i, j))
    ensures k < UB4BITS && k != i && k != j && Tells4By3(a, b, c, d, i, j, k)
  {
    ghost var g := SomeBitSeparatesFourth(a, b, c, d, i, j);
    ThirdBit(a, b, c, d, i, j, g);
    BitsThatTellAreInSpan(a, b, c, d, s, g);
    ThreeSeparates(a, b, c, d, i, j, g);
    k := s.lowbit;
    while k < UB4BITS && !Distinct4(Three(a, i, j, k), Three(b, i, j, k), Three(c, i, j, k), Three(d, i, j, k))
      invariant s.lowbit <= k <= g
    {
      k := k + 1;
    }
    ThreeSeparates(a, b, c, d, i, j, k);
    ThirdBit(a, b, c, d, i, j, k);
  }

  /** The three loops that look for bits i, j and k: all three are found, and they are different. */
  method FindThreeBits(a: ub4, b: ub4, c: ub4, d: ub4, s: Span) returns (i: nat, j: nat, k: nat)
    requires s.Covers([a, b, c, d]) && Distinct4(a, b, c, d) && NoTwoBitsTell(a, b, c, d)
    ensures i < UB4BITS && j < UB4BITS && k < UB4BITS && Distinct3(i, j, k)
    ensures Tells4By3(a, b, c, d, i, j, k)
  {
    ghost var g := DifferAt(c, d);
    BitsThatTellAreInSpan(a, b, c, d, s, g);
    FirstBit(c, d, g);
    i := s.lowbit;
    while i < UB4BITS && And(Shr(c, i), 1) == And(Shr(d, i), 1)
      invariant s.lowbit <= i <= g
    {
      i := i + 1;
    }
    FirstBit(c, d, i);

    g := SomeBitSeparatesThird(b, c, d, i);
    SecondBit(b, c, d, i, g);
    BitsThatTellAreInSpan(a, b, c, d, s, g);
    j := s.lowbit;
    while j < UB4BITS && !Distinct3(Two(b, i, j), Two(c, i, j), Two(d, i, j))
      invariant s.lowbit <= j <= g
    {
      j := j + 1;
    }
    SecondBit(b, c, d, i, j);
    NeitherOrderTells(a, b, c, d, i, j);
    k := FindThirdBit(a, b, c, d, s, i, j);
  }

  /** The four cases for bits m < n and an unbalanced bit o: one of the first three always hits. */
  lemma IsolatedSize(m: nat, n: nat, o: nat)
    requires 0 < n
    ensures Instructions(Isolated(m, n, o)) <= 8
  {
    Count();
  }

  lemma AdjacentSize(m: nat, n: nat, o: nat)
    ensures Instructions(Adjacent(m, n, o)) <= 8
  {
    Count();
  }

  lemma NeighboursSize(m: nat, n: nat, o: nat)
    requires m < n && m != o && n != o && (m + 1 == o || m == n - 1 || o == n - 1)
    ensures Instructions(Neighbours(m, n, o)) <= 9
  {
    Count();
  }

  lemma Code3Size(m: nat, n: nat, o: nat)
    requires m < n && m != o && n != o
    ensures Instructions(Code3(m, n, o)) <= 9
  {
    if m + 1 == o || m == n - 1 || o == n - 1 {
      NeighboursSize(m, n, o);
    } else if o + 1 != m {
      IsolatedSize(m, n, o);
    } else {
      AdjacentSize(m, n, o);
    }
  }

  lemma CodeSizes(m: nat, n: nat, o: nat)
    requires m < n && m != o && n != o
    ensures Instructions(Code1(m, n, o)) <= 7 && Instructions(Code2(m, n, o)) <= 7
    ensures Instructions(Code3(m, n, o)) <= 9
  {
    Code3Size(m, n, o);
    assert Instructions(Code1(m, n, o)) <= 7 by { Count(); }
    assert Instructions(Code2(m, n, o)) <= 7 by { Count(); }
  }

  method TryMultipliers(a: ub4, b: ub4, c: ub4, d: ub4, m: nat, n: nat, o: nat) returns (r: Result)
    requires m < n < UB4BITS && o < UB4BITS && m != o && n != o
    requires Hits(1, a, b, c, d, m, n, o) || Hits(2, a, b, c, d, m, n, o) || Hits(3, a, b, c, d, m, n, o)
    ensures r.Ok? && Solves4(r.code, a, b, c, d, 9)
  {
    CodeSizes(m, n, o);
    Test1MeansHit(a, b, c, d, m, n, o);
    Test2MeansHit(a, b, c, d, m, n, o);
    Test3MeansHit(a, b, c, d, m, n, o);
    var code1, code2, code3 := Code1(m, n, o), Code2(m, n, o), Code3(m, n, o);
    var code0, hits0 := MixCode(V(m), 1, V(n - 1), 2), TestMix(a, b, c, d, m, 1, n - 1, 2);
    if TestFour(Test1(a, m, n, o), Test1(b, m, n, o), Test1(c, m, n, o), Test1(d, m, n, o)) {
      Code1Computes(m, n, o);
      ComputesWorks(code1, 1, m, n, o, false, a, b, c, d);
      return Ok(code1);
    }
    if TestFour(Test2(a, m, n, o), Test2(b, m, n, o), Test2(c, m, n, o), Test2(d, m, n, o)) {
      Code2Computes(m, n, o);
      ComputesWorks(code2, 2, m, n, o, m + 1 != o && m != 0 && o == 0, a, b, c, d);
      return Ok(code2);
    }
    if TestFour(Test3(a, m, n, o), Test3(b, m, n, o), Test3(c, m, n, o), Test3(d, m, n, o)) {
      Code3Computes(m, n, o);
      ComputesWorks(code3, 3, m, n, o, m + 1 != o && m != n - 1 && o != n - 1 && o + 1 == m, a, b, c, d);
      return Ok(code3);
    }
    if hits0 {
      return Ok(code0);
    }
    return Fatal;
  }

  lemma SomeMultiplierOneToThreeHits(a: ub4, b: ub4, c: ub4, d: ub4, m: nat, n: nat, o: nat)
    requires NoTwoBitsTell(a, b, c, d) && Tells4By3(a, b, c, d, m, n, o) && Ones(a, b, c, d, o) != 2
    ensures Hits(1, a, b, c, d, m, n, o) || Hits(2, a, b, c, d, m, n, o) || Hits(3, a, b, c, d, m, n, o)
  {
    OnesIs(a, b, c, d, o);
    SomeMultiplierHits(a, b, c, d, m, n, o);
    NeitherOrderTells(a, b, c, d, m, n);
  }

  lemma OneOfTheFirstTwoIsUneven(a: ub4, b: ub4, c: ub4, d: ub4, i: nat, j: nat, k: nat)
    requires NoTwoBitsTell(a, b, c, d) && Tells4By3(a, b, c, d, i, j, k)
    ensures Ones(a, b, c, d, i) != 2 || Ones(a, b, c, d, j) != 2
  {
    NeitherOrderTells(a, b, c, d, i, j);
    NeitherOrderTells(a, b, c, d, i, k);
    NeitherOrderTells(a, b, c, d, j, k);
    SomeBitIsUnbalanced(a, b, c, d, i, j, k);
    OnesIs(a, b, c, d, i);
    OnesIs(a, b, c, d, j);
  }

  /** The big guns always hit: the bit called o is never split two and two. */
  method BigGuns(a: ub4, b: ub4, c: ub4, d: ub4, s: Span) returns (r: Result)
    requires s.Covers([a, b, c, d]) && Distinct4(a, b, c, d) && NoTwoBitsTell(a, b, c, d)
    ensures r.Ok? && Solves4(r.code, a, b, c, d, 9)
  {
    var i, j, k := FindThreeBits(a, b, c, d, s);
    OneOfTheFirstTwoIsUneven(a, b, c, d, i, j, k);
    var m, n, o := i, j, k;
    if Ones(a, b, c, d, i) != 2 {
      m, n, o := j, k, i;
    } else if Ones(a, b, c, d, j) != 2 {
      m, n, o := i, k, j;
    }
    if m > n {
      m, n := n, m;
    }
    SomeMultiplierOneToThreeHits(a, b, c, d, m, n, o);
    r := TryMultipliers(a, b, c, d, m, n, o);
  }

  /**
    For four distinct keys a hash onto 0..3 is always found, with as few instructions as the tests allow; nothing
    fatal happens.
   */
  method Hexfour(a: ub4, b: ub4, c: ub4, d: ub4, s: Span) returns (r: Result)
    requires s.Covers([a, b, c, d])
    ensures !Distinct4(a, b, c, d) ==> r == DuplicateKeys
    ensures !Distinct4(a, b, c, d) || (r.Ok? && Solves4(r.code, a, b, c, d, Budget4(a, b, c, d)))
  {
    if a == b || a == c || a == d || b == c || b == d || c == d {
      return DuplicateKeys;
    }
    var found := OneInstruction(a, b, c, d, s);
    if found.Some? {
      return Ok(found.value);
    }
    found := TwoInstructions(a, b, c, d, s);
    if found.Some? {
      return Ok(found.value);
    }
    found := ThreeInstructions(a, b, c, d, s);
    if found.Some? {
      return Ok(found.value);
    }
    found := FourInstructionsLinear(a, b, c, d, s);
    if found.Some? {
      return Ok(found.value);
    }
    found := FourInstructionsQuadratic(a, b, c, d, s);
    found := FiveInstructions(a, b, c, d, s);
    if found.Some? {
      return Ok(found.value);
    }
    r := BigGuns(a, b, c, d, s);
  }

  /** inithex for three and for four keys. */
  method Inithex(keys: seq<ub4>, minimal: bool) returns (r: Result)
    requires |keys| == 3 || |keys| == 4
    ensures r == DuplicateKeys <==> exists m, n :: 0 <= m < n < |keys| && keys[m] == keys[n]
    ensures r.Ok? || r == DuplicateKeys
    ensures r.Ok? ==> Defined(r.code)
    ensures r.Ok? && |keys| == 3 ==> Hashes3(r.code, minimal, keys[0], keys[1], keys[2])
    ensures r.Ok? && |keys| == 4 ==> Hashes4(r.code, keys[0], keys[1], keys[2], keys[3])
    ensures r.Ok? && |keys| == 3 ==>
      Instructions(r.code) <= Budget3(keys[0], keys[1], keys[2]) + if minimal then 1 else 0
    ensures r.Ok? && |keys| == 4 ==> Instructions(r.code) <= Budget4(keys[0], keys[1], keys[2], keys[3])
  {
    var s := SetLow(keys);
    if |keys| == 3 {
      assert keys == [keys[0], keys[1], keys[2]];
      r := Hexthree(keys[0], keys[1], keys[2], s, minimal);
    } else {
      assert keys == [keys[0], keys[1], keys[2], keys[3]];
      r := Hexfour(keys[0], keys[1], keys[2], keys[3], s);
    }
  }
}
