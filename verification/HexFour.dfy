/** Four integer keys: testfour and hexfour of lib/perfect/perfhex.c. */
module HexFour {
  import opened Basics
  import opened HexCode
  import opened HexThree
  import opened Words

  function MaskOfFour(a: nat, b: nat, c: nat, d: nat): nat {
    Xor(Xor(Xor(Pow2(a), Pow2(b)), Pow2(c)), Pow2(d))
  }

  lemma BitOfXorPow2(x: nat, m: nat, t: nat)
    ensures Bit(Xor(x, Pow2(m)), t) <==> Bit(x, t) != (m == t)
  {
    BitOfPow2(m, t);
    BitOfXor(x, Pow2(m), t);
  }

  lemma BitsOfMask(a: nat, b: nat, c: nat, d: nat, t: nat)
    ensures Bit(MaskOfFour(a, b, c, d), t) <==> ((((a == t) != (b == t)) != (c == t)) != (d == t))
  {
    BitOfPow2(a, t);
    BitOfXorPow2(Pow2(a), b, t);
    var ab := Xor(Pow2(a), Pow2(b));
    BitOfXorPow2(ab, c, t);
    BitOfXorPow2(Xor(ab, Pow2(c)), d, t);
  }

  lemma FifteenBits(t: nat)
    ensures Bit(15, t) <==> t < 4
  {
    assert Pow2(4) == 16;
    if t >= 4 {
      NoHighBits(15, 4, t);
    } else {
      assert Shr(15, 1) == 7 && Shr(7, 1) == 3 && Shr(3, 1) == 1;
      ShrShr(15, 1, 1);
      ShrShr(15, 2, 1);
    }
  }

  lemma MaskBelow16(a: nat, b: nat, c: nat, d: nat)
    requires a < 4 && b < 4 && c < 4 && d < 4
    ensures MaskOfFour(a, b, c, d) < Pow2(4)
  {
    assert forall n: nat :: n < 4 ==> Pow2(n) < 16;
    assert Pow2(4) == 16;
    XorBound(Pow2(a), Pow2(b), 4);
    XorBound(Xor(Pow2(a), Pow2(b)), Pow2(c), 4);
    XorBound(Xor(Xor(Pow2(a), Pow2(b)), Pow2(c)), Pow2(d), 4);
  }

  lemma FifteenMeansPermutation(a: nat, b: nat, c: nat, d: nat)
    ensures MaskOfFour(a, b, c, d) == 0xf <==> Permutation(a, b, c, d)
  {
    var mask := MaskOfFour(a, b, c, d);
    forall t: nat
      ensures Bit(mask, t) <==> ((((a == t) != (b == t)) != (c == t)) != (d == t))
      ensures Bit(15, t) <==> t < 4
    {
      BitsOfMask(a, b, c, d, t);
      FifteenBits(t);
    }
    if mask == 15 {
      assert Bit(mask, 0) && Bit(mask, 1) && Bit(mask, 2) && Bit(mask, 3);
    }
    if Permutation(a, b, c, d) {
      MaskBelow16(a, b, c, d);
      SameBits(mask, 15, 4);
    }
  }

  /** Powers of two xored together are 15 exactly when they are 1, 2, 4 and 8 in some order. */
  predicate TestFour(a: nat, b: nat, c: nat, d: nat): (r: bool)
    ensures r <==> Permutation(a, b, c, d)
  {
    FifteenMeansPermutation(a, b, c, d);
    MaskOfFour(a, b, c, d) == 0xf
  }

  /** Two masked fields of the key xored, the commonest form tested. */
  function Mix(k: ub4, i: nat, p: nat, j: nat, q: nat): nat {
    Xor(And(Shr(k, i), p), And(Shr(k, j), q))
  }

  predicate TestMix(a: ub4, b: ub4, c: ub4, d: ub4, i: nat, p: nat, j: nat, q: nat) {
    TestFour(Mix(a, i, p, j, q), Mix(b, i, p, j, q), Mix(c, i, p, j, q), Mix(d, i, p, j, q))
  }

  /** The printed text for bit i upwards: val itself may stand for val >> 0. */
  predicate Reads(e: Expr, i: nat) {
    i < UB4BITS && (e == ShiftR(Val, i) || (i == 0 && e == Val))
  }

  function MixCode(x: Expr, p: nat, y: Expr, q: nat): Code {
    One(XorE(Mask(x, p), Mask(y, q)))
  }

  predicate Works(code: Code, a: ub4, b: ub4, c: ub4, d: ub4) {
    Defined(code) && Hashes4(code, a, b, c, d)
  }

  /** The code hashes the four keys with n instructions at most. */
  predicate Solves4(code: Code, a: ub4, b: ub4, c: ub4, d: ub4, n: nat) {
    Works(code, a, b, c, d) && Instructions(code) <= n
  }

  lemma MixSize(x: Expr, p: nat, y: Expr, q: nat)
    ensures Instructions(MixCode(x, p, y, q)) == Size(x) + Size(y) + 3 && Size(Val) == 0
    ensures forall i: nat {:trigger ShiftR(Val, i)} :: Size(ShiftR(Val, i)) == 1
  {
    Count();
  }

  lemma MixRuns(x: Expr, i: nat, p: nat, y: Expr, j: nat, q: nat, k: ub4)
    requires Reads(x, i) && Reads(y, j) && p < 4 && q < 4
    ensures Defined(MixCode(x, p, y, q)) && Run(MixCode(x, p, y, q), k) == Mix(k, i, p, j, q)
  {
    Unfold();
  }

  lemma MixWorks(x: Expr, i: nat, p: nat, y: Expr, j: nat, q: nat, a: ub4, b: ub4, c: ub4, d: ub4)
    requires Reads(x, i) && Reads(y, j) && p < 4 && q < 4
    requires TestMix(a, b, c, d, i, p, j, q)
    ensures Works(MixCode(x, p, y, q), a, b, c, d)
  {
    MixRuns(x, i, p, y, j, q, a);
    MixRuns(x, i, p, y, j, q, b);
    MixRuns(x, i, p, y, j, q, c);
    MixRuns(x, i, p, y, j, q, d);
  }

  /** Do bits p and q together tell the four keys apart? */
  predicate Tells4(a: ub4, b: ub4, c: ub4, d: ub4, p: nat, q: nat) {
    Permutation(Pair(Bit(a, p), Bit(a, q)), Pair(Bit(b, p), Bit(b, q)), Pair(Bit(c, p), Bit(c, q)),
        Pair(Bit(d, p), Bit(d, q)))
  }

  lemma DiffBitsOfFour(a: ub4, b: ub4, c: ub4, d: ub4, s: Span, t: nat)
    requires s.Covers([a, b, c, d])
    requires !(Bit(a, t) == Bit(b, t) && Bit(b, t) == Bit(c, t) && Bit(c, t) == Bit(d, t))
    ensures Bit(s.diffbits, t) && s.lowbit <= t <= s.highbit
  {
    var keys := [a, b, c, d];
    assert keys[0] == a && keys[1] == b && keys[2] == c && keys[3] == d;
    assert Varies(keys, t);
  }

  // Does the two-bit field at i separate the keys?
  predicate FieldSeparates(a: ub4, b: ub4, c: ub4, d: ub4, i: nat) {
    TestFour(TwoBits(a, i), TwoBits(b, i), TwoBits(c, i), TwoBits(d, i))
  }

  lemma FieldBits(a: ub4, b: ub4, c: ub4, d: ub4, s: Span, i: nat)
    requires s.Covers([a, b, c, d])
    ensures FieldSeparates(a, b, c, d, i) ==> And(Shr(s.diffbits, i), 3) == 3 && s.lowbit <= i < s.highbit
  {
    if !FieldSeparates(a, b, c, d, i) {
      return;
    }
    TwoBitsAre(a, i);
    TwoBitsAre(b, i);
    TwoBitsAre(c, i);
    TwoBitsAre(d, i);
    DiffBitsOfFour(a, b, c, d, s, i);
    DiffBitsOfFour(a, b, c, d, s, i + 1);
    Fields(s.diffbits, i);
  }

  lemma Fields(x: nat, i: nat)
    ensures And(Shr(x, i), 3) == Pair(Bit(x, i), Bit(x, i + 1))
    ensures And(Shr(x, i), 1) == Pair(Bit(x, i), false)
    ensures And(Shr(x, i), 2) == Pair(false, Bit(x, i + 1))
  {
    Masks(Shr(x, i));
    ShrShr(x, i, 1);
  }

  /** One instruction: the lowest two bits or the highest two. */
  method OneInstruction(a: ub4, b: ub4, c: ub4, d: ub4, s: Span) returns (r: Option<Code>)
    requires s.Covers([a, b, c, d])
    ensures r.None? || Solves4(r.value, a, b, c, d, 1)
    ensures r.None? ==> !FieldSeparates(a, b, c, d, 0) && !FieldSeparates(a, b, c, d, UB4BITS - 2)
  {
    Unfold();
    Count();
    if And(s.diffbits, 3) == 3 && TestFour(LowBits(a), LowBits(b), LowBits(c), LowBits(d)) {
      return Some(One(Mask(Val, 3)));
    }
    if And(Shr(s.diffbits, UB4BITS - 2), 3) == 3
      && TestFour(Shr(a, UB4BITS - 2), Shr(b, UB4BITS - 2), Shr(c, UB4BITS - 2), Shr(d, UB4BITS - 2)) {
      return Some(One(ShiftR(Val, UB4BITS - 2)));
    }
    FieldBits(a, b, c, d, s, 0);
    FieldBits(a, b, c, d, s, UB4BITS - 2);
    TopField(a);
    TopField(b);
    TopField(c);
    TopField(d);
    return None;
  }

  lemma TopField(k: ub4)
    ensures TwoBits(k, UB4BITS - 2) == Shr(k, UB4BITS - 2)
  {
    TopBits(k);
    Masks(Shr(k, UB4BITS - 2));
  }

  /** Two instructions.  Failure means that no two-bit field separates the keys. */
  method TwoInstructions(a: ub4, b: ub4, c: ub4, d: ub4, s: Span) returns (r: Option<Code>)
    requires s.Covers([a, b, c, d])
    ensures r.None? || Solves4(r.value, a, b, c, d, 2)
    ensures r.None? ==> forall i: nat :: !FieldSeparates(a, b, c, d, i)
  {
    Unfold();
    Count();
    var i := s.lowbit;
    while i < s.highbit
      invariant s.lowbit <= i
      invariant forall t: nat :: s.lowbit <= t < i && t < s.highbit ==> !FieldSeparates(a, b, c, d, t)
    {
      if And(Shr(s.diffbits, i), 3) == 3 && FieldSeparates(a, b, c, d, i) {
        return Some(One(Mask(ShiftR(Val, i), 3)));
      }
      FieldBits(a, b, c, d, s, i);
      i := i + 1;
    }
    forall t: nat ensures !FieldSeparates(a, b, c, d, t) { FieldBits(a, b, c, d, s, t); }
    return None;
  }

  function DiffOfFields(k: ub4, i: nat): nat { LowBits(Minus(k, Shr(k, i))) }
  function XorOfFields(k: ub4, i: nat): nat { LowBits(Xor(k, Shr(k, i))) }

  /** Does val combined with val >> i, by one of three operators, separate the keys? */
  predicate Combines(a: ub4, b: ub4, c: ub4, d: ub4, i: nat) {
    || TestFour(SumBits(a, i), SumBits(b, i), SumBits(c, i), SumBits(d, i))
    || TestFour(DiffOfFields(a, i), DiffOfFields(b, i), DiffOfFields(c, i), DiffOfFields(d, i))
    || TestFour(XorOfFields(a, i), XorOfFields(b, i), XorOfFields(c, i), XorOfFields(d, i))
  }

  // Keys that agree in the two fields agree in what is made of them.
  lemma FieldsDecide(k: ub4, l: ub4, i: nat)
    requires TwoBits(k, 0) == TwoBits(l, 0) && TwoBits(k, i) == TwoBits(l, i)
    ensures SumBits(k, i) == SumBits(l, i) && DiffOfFields(k, i) == DiffOfFields(l, i)
            && XorOfFields(k, i) == XorOfFields(l, i)
  {
    var x, y := Shr(k, i), Shr(l, i);
    Masks(k);
    Masks(l);
    Masks(x);
    Masks(y);
    SameResidues(k, l, x, y);
    Masks(Plus(k, x));
    Masks(Plus(l, y));
    Masks(Minus(k, x));
    Masks(Minus(l, y));
    Masks(Xor(k, x));
    Masks(Xor(l, y));
    BitOfXor(k, x, 0);
    BitOfXor(k, x, 1);
    BitOfXor(l, y, 0);
    BitOfXor(l, y, 1);
  }

  // If one of the two fields is the same in all keys, the other one would have to separate them.
  lemma ConstantFieldFails(a: ub4, b: ub4, c: ub4, d: ub4, i: nat, f: nat, g: nat)
    requires (f == 0 && g == i) || (f == i && g == 0)
    requires TwoBits(a, f) == TwoBits(b, f) == TwoBits(c, f) == TwoBits(d, f) && !FieldSeparates(a, b, c, d, g)
    ensures !Combines(a, b, c, d, i)
  {
    SomeFieldCollides(a, b, c, d, g);
    if TwoBits(a, g) == TwoBits(b, g) {
      FieldsDecide(a, b, i);
    } else if TwoBits(a, g) == TwoBits(c, g) {
      FieldsDecide(a, c, i);
    } else if TwoBits(a, g) == TwoBits(d, g) {
      FieldsDecide(a, d, i);
    } else if TwoBits(b, g) == TwoBits(c, g) {
      FieldsDecide(b, c, i);
    } else if TwoBits(b, g) == TwoBits(d, g) {
      FieldsDecide(b, d, i);
    } else {
      FieldsDecide(c, d, i);
    }
  }

  // val + val, val - val and val ^ val have nothing in bit 0.
  lemma UnshiftedFails(a: ub4, b: ub4, c: ub4, d: ub4)
    ensures !Combines(a, b, c, d, 0)
  {
    forall k: ub4 ensures SumBits(k, 0) != 1 && DiffOfFields(k, 0) == 0 && XorOfFields(k, 0) == 0 {
      WordKeepsResidue(k + k);
      Masks(Plus(k, k));
      Masks(Minus(k, k));
      XorZero(k);
      Masks(Xor(k, k));
    }
  }

  lemma ConstantField(a: ub4, b: ub4, c: ub4, d: ub4, s: Span, f: nat)
    requires s.Covers([a, b, c, d]) && (And(Shr(s.diffbits, f), 3) == 0 || f + 1 < s.lowbit || f > s.highbit)
    ensures TwoBits(a, f) == TwoBits(b, f) == TwoBits(c, f) == TwoBits(d, f)
  {
    Fields(s.diffbits, f);
    forall t | t == f || t == f + 1 ensures Bit(a, t) == Bit(b, t) == Bit(c, t) == Bit(d, t) {
      if !(Bit(a, t) == Bit(b, t) && Bit(b, t) == Bit(c, t) && Bit(c, t) == Bit(d, t)) {
        DiffBitsOfFour(a, b, c, d, s, t);
      }
    }
    TwoBitsAre(a, f);
    TwoBitsAre(b, f);
    TwoBitsAre(c, f);
    TwoBitsAre(d, f);
  }

  /** The shifts that the search skips would fail, where no two-bit field separates the keys. */
  lemma SkippedFails(a: ub4, b: ub4, c: ub4, d: ub4, s: Span, i: nat)
    requires s.Covers([a, b, c, d]) && forall t: nat :: !FieldSeparates(a, b, c, d, t)
    requires And(s.diffbits, 3) == 0 || And(Shr(s.diffbits, i), 3) == 0 || i < s.lowbit || i > s.highbit
    ensures !Combines(a, b, c, d, i)
  {
    if i == 0 {
      UnshiftedFails(a, b, c, d);
    } else if And(Shr(s.diffbits, i), 3) == 0 || i > s.highbit {
      ConstantField(a, b, c, d, s, i);
      ConstantFieldFails(a, b, c, d, i, i, 0);
    } else {
      ConstantField(a, b, c, d, s, 0);
      ConstantFieldFails(a, b, c, d, i, 0, i);
    }
  }

  function CombinedCode(op: Op, i: nat): Code { One(Mask(Bin(op, Val, ShiftR(Val, i)), 3)) }

  lemma CombinedRuns(op: Op, i: nat, k: ub4)
    requires i < UB4BITS
    ensures Run(CombinedCode(op, i), k) == And(Apply(op, k, Shr(k, i)), 3)
    ensures Defined(CombinedCode(op, i)) && Instructions(CombinedCode(op, i)) == 3
  {
    Unfold();
    Count();
  }

  lemma CombinedSolves(op: Op, i: nat, a: ub4, b: ub4, c: ub4, d: ub4)
    requires i < UB4BITS
    requires Permutation(And(Apply(op, a, Shr(a, i)), 3), And(Apply(op, b, Shr(b, i)), 3),
                         And(Apply(op, c, Shr(c, i)), 3), And(Apply(op, d, Shr(d, i)), 3))
    ensures Solves4(CombinedCode(op, i), a, b, c, d, 3)
  {
    CombinedRuns(op, i, a);
    CombinedRuns(op, i, b);
    CombinedRuns(op, i, c);
    CombinedRuns(op, i, d);
  }

  method ThreeInstructionsAt(a: ub4, b: ub4, c: ub4, d: ub4, i: nat) returns (r: Option<Code>)
    requires i < UB4BITS
    ensures r.None? || Solves4(r.value, a, b, c, d, 3)
    ensures r.None? ==> !Combines(a, b, c, d, i)
  {
    if TestFour(SumBits(a, i), SumBits(b, i), SumBits(c, i), SumBits(d, i)) {
      CombinedSolves(PlusOp, i, a, b, c, d);
      return Some(One(Mask(PlusE(Val, ShiftR(Val, i)), 3)));
    }
    if TestFour(DiffOfFields(a, i), DiffOfFields(b, i), DiffOfFields(c, i), DiffOfFields(d, i)) {
      CombinedSolves(MinusOp, i, a, b, c, d);
      return Some(One(Mask(MinusE(Val, ShiftR(Val, i)), 3)));
    }
    if TestFour(XorOfFields(a, i), XorOfFields(b, i), XorOfFields(c, i), XorOfFields(d, i)) {
      CombinedSolves(XorOp, i, a, b, c, d);
      return Some(One(Mask(XorE(Val, ShiftR(Val, i)), 3)));
    }
    return None;
  }

  /**
    Three instructions: val combined with one shift of itself. Failure, where no two-bit field separates
    the keys, means that no shift at all would do.
   */
  method ThreeInstructions(a: ub4, b: ub4, c: ub4, d: ub4, s: Span) returns (r: Option<Code>)
    requires s.Covers([a, b, c, d])
    ensures r.None? || Solves4(r.value, a, b, c, d, 3)
    ensures r.None? ==> (exists t: nat :: FieldSeparates(a, b, c, d, t)) || forall i: nat :: !Combines(a, b, c, d, i)
  {
    if And(s.diffbits, 3) != 0 {
      var i := s.lowbit;
      while i <= s.highbit
        invariant s.lowbit <= i
        invariant forall t: nat {:trigger Combines(a, b, c, d, t)} ::
                  s.lowbit <= t < i && And(Shr(s.diffbits, t), 3) != 0 ==> !Combines(a, b, c, d, t)
      {
        if And(Shr(s.diffbits, i), 3) != 0 {
          r := ThreeInstructionsAt(a, b, c, d, i);
          if r.Some? {
            return;
          }
        }
        i := i + 1;
      }
    }
    if forall t: nat :: !FieldSeparates(a, b, c, d, t) {
      forall i: nat ensures !Combines(a, b, c, d, i) {
        if And(s.diffbits, 3) == 0 || And(Shr(s.diffbits, i), 3) == 0 || i < s.lowbit || i > s.highbit {
          SkippedFails(a, b, c, d, s, i);
        }
      }
    }
    return None;
  }

  /** All keys agree at bit t. */
  predicate Constant4(a: ub4, b: ub4, c: ub4, d: ub4, t: nat) {
    Bit(a, t) == Bit(b, t) && Bit(b, t) == Bit(c, t) && Bit(c, t) == Bit(d, t)
  }

  lemma MixFields(k: ub4, j: nat, i: nat)
    ensures Mix(k, j, 3, i, 1) == Pair(Bit(k, j) != Bit(k, i), Bit(k, j + 1))
    ensures Mix(k, j, 3, i, 2) == Pair(Bit(k, j), Bit(k, j + 1) != Bit(k, i + 1))
  {
    Fields(k, i);
    Fields(k, j);
    XorOfPairs(Bit(k, j), Bit(k, j + 1), Bit(k, i), false);
    XorOfPairs(Bit(k, j), Bit(k, j + 1), false, Bit(k, i + 1));
  }

  // What the tests of (val >> j) & 3 against one other bit need, where no two-bit field separates the keys.
  lemma MixNeeds(a: ub4, b: ub4, c: ub4, d: ub4, j: nat, i: nat)
    requires !FieldSeparates(a, b, c, d, j)
    ensures TestMix(a, b, c, d, j, 3, i, 1) ==> !Constant4(a, b, c, d, i) && !Constant4(a, b, c, d, j + 1)
    ensures TestMix(a, b, c, d, j, 3, i, 2) ==> !Constant4(a, b, c, d, i + 1) && !Constant4(a, b, c, d, j)
  {
    FieldIsPairs(a, b, c, d, j);
    MixArePairs(a, b, c, d, j, i);
    XoredPairs(Bit(a, j), Bit(b, j), Bit(c, j), Bit(d, j), Bit(a, j + 1), Bit(b, j + 1), Bit(c, j + 1), Bit(d, j + 1),
               Bit(a, i), Bit(b, i), Bit(c, i), Bit(d, i));
    XoredPairs(Bit(a, j + 1), Bit(b, j + 1), Bit(c, j + 1), Bit(d, j + 1), Bit(a, j), Bit(b, j), Bit(c, j), Bit(d, j),
               Bit(a, i + 1), Bit(b, i + 1), Bit(c, i + 1), Bit(d, i + 1));
  }

  lemma FieldIsPairs(a: ub4, b: ub4, c: ub4, d: ub4, j: nat)
    ensures FieldSeparates(a, b, c, d, j) <==> Tells4(a, b, c, d, j, j + 1)
    ensures Tells4(a, b, c, d, j, j + 1) <==> Tells4(a, b, c, d, j + 1, j)
  {
    TwoBitsAre(a, j);
    TwoBitsAre(b, j);
    TwoBitsAre(c, j);
    TwoBitsAre(d, j);
  }

  lemma MixArePairs(a: ub4, b: ub4, c: ub4, d: ub4, j: nat, i: nat)
    ensures TestMix(a, b, c, d, j, 3, i, 1) <==>
      Permutation(Pair(Bit(a, j) != Bit(a, i), Bit(a, j + 1)), Pair(Bit(b, j) != Bit(b, i), Bit(b, j + 1)),
                  Pair(Bit(c, j) != Bit(c, i), Bit(c, j + 1)), Pair(Bit(d, j) != Bit(d, i), Bit(d, j + 1)))
    ensures TestMix(a, b, c, d, j, 3, i, 2) <==>
      Permutation(Pair(Bit(a, j), Bit(a, j + 1) != Bit(a, i + 1)), Pair(Bit(b, j), Bit(b, j + 1) != Bit(b, i + 1)),
                  Pair(Bit(c, j), Bit(c, j + 1) != Bit(c, i + 1)), Pair(Bit(d, j), Bit(d, j + 1) != Bit(d, i + 1)))
  {
    MixFields(a, j, i);
    MixFields(b, j, i);
    MixFields(c, j, i);
    MixFields(d, j, i);
  }

  // Xoring the same bit to one bit of four pairs, or a constant second bit, does not make them distinct.
  lemma XoredPairs(p0: bool, p1: bool, p2: bool, p3: bool, q0: bool, q1: bool, q2: bool, q3: bool, r0: bool, r1: bool,
                   r2: bool, r3: bool)
    requires !Permutation(Pair(p0, q0), Pair(p1, q1), Pair(p2, q2), Pair(p3, q3))
    ensures (r0 == r1 && r1 == r2 && r2 == r3) || (q0 == q1 && q1 == q2 && q2 == q3) ==>
      && !Permutation(Pair(p0 != r0, q0), Pair(p1 != r1, q1), Pair(p2 != r2, q2), Pair(p3 != r3, q3))
      && !Permutation(Pair(q0, p0 != r0), Pair(q1, p1 != r1), Pair(q2, p2 != r2), Pair(q3, p3 != r3))
  {
  }

  // The tests of one bit against one other are about these two bits.
  lemma PairNeeds(a: ub4, b: ub4, c: ub4, d: ub4, j: nat, i: nat)
    ensures TestMix(a, b, c, d, j, 2, i, 1) <==> Tells4(a, b, c, d, i, j + 1)
    ensures TestMix(a, b, c, d, j, 1, i, 2) <==> Tells4(a, b, c, d, j, i + 1)
  {
    MixBits(a, j, i);
    MixBits(b, j, i);
    MixBits(c, j, i);
    MixBits(d, j, i);
    MixBits(a, i, j);
    MixBits(b, i, j);
    MixBits(c, i, j);
    MixBits(d, i, j);
  }

  lemma TellsNeeds(a: ub4, b: ub4, c: ub4, d: ub4, p: nat, q: nat)
    ensures Tells4(a, b, c, d, p, q) ==> !Constant4(a, b, c, d, p) && !Constant4(a, b, c, d, q) && p != q
    ensures Tells4(a, b, c, d, p, q) <==> Tells4(a, b, c, d, q, p)
  {
  }

  /** Does val & 3, or one of its two bits, separate the keys with one bit of val >> i? */
  predicate Mixes(a: ub4, b: ub4, c: ub4, d: ub4, i: nat) {
    || TestMix(a, b, c, d, 0, 3, i, 1) || TestMix(a, b, c, d, 0, 2, i, 1)
    || TestMix(a, b, c, d, 0, 3, i, 2) || TestMix(a, b, c, d, 0, 1, i, 2)
  }

  /** The tests that the guards of the search skip would fail, where no two-bit field separates the keys. */
  lemma SkippedMixFails(a: ub4, b: ub4, c: ub4, d: ub4, s: Span, i: nat)
    requires s.Covers([a, b, c, d]) && !FieldSeparates(a, b, c, d, 0)
    ensures TestMix(a, b, c, d, 0, 3, i, 1) || TestMix(a, b, c, d, 0, 2, i, 1) ==>
      && And(Shr(s.diffbits, i), 1) != 0 && And(s.diffbits, 2) != 0 && And(s.diffbits, 3) != 0
      && s.lowbit <= i <= s.highbit
    ensures TestMix(a, b, c, d, 0, 3, i, 2) || TestMix(a, b, c, d, 0, 1, i, 2) ==>
      && And(Shr(s.diffbits, i), 2) != 0 && And(s.diffbits, 1) != 0 && And(s.diffbits, 3) != 0
      && s.lowbit <= i <= s.highbit
  {
    MixNeeds(a, b, c, d, 0, i);
    PairNeeds(a, b, c, d, 0, i);
    TellsNeeds(a, b, c, d, i, 1);
    TellsNeeds(a, b, c, d, 0, i + 1);
    VaryingBits(a, b, c, d, s, 0);
    VaryingBits(a, b, c, d, s, i);
    assert Shr(s.diffbits, 0) == s.diffbits;
  }

  lemma VaryingBits(a: ub4, b: ub4, c: ub4, d: ub4, s: Span, i: nat)
    requires s.Covers([a, b, c, d])
    ensures !Constant4(a, b, c, d, i) ==>
      And(Shr(s.diffbits, i), 1) == 1 && And(Shr(s.diffbits, i), 3) != 0 && s.lowbit <= i <= s.highbit
    ensures !Constant4(a, b, c, d, i + 1) ==>
      And(Shr(s.diffbits, i), 2) == 2 && And(Shr(s.diffbits, i), 3) != 0 && s.lowbit <= i + 1 <= s.highbit
  {
    Fields(s.diffbits, i);
    if !Constant4(a, b, c, d, i) {
      DiffBitsOfFour(a, b, c, d, s, i);
    }
    if !Constant4(a, b, c, d, i + 1) {
      DiffBitsOfFour(a, b, c, d, s, i + 1);
    }
  }

  /** The tests of the four-instruction search at one shift, as its guards let them through. */
  method FourInstructionsAt(a: ub4, b: ub4, c: ub4, d: ub4, s: Span, i: nat) returns (r: Option<Code>)
    requires s.Covers([a, b, c, d]) && i < UB4BITS
    ensures r.None? || Solves4(r.value, a, b, c, d, 4)
    ensures r.Some? || FieldSeparates(a, b, c, d, 0) || !Mixes(a, b, c, d, i)
  {
    if !FieldSeparates(a, b, c, d, 0) {
      SkippedMixFails(a, b, c, d, s, i);
    }
    var shifted := ShiftR(Val, i);
    MixSize(Val, 3, shifted, 1);
    MixSize(Val, 2, shifted, 1);
    MixSize(Val, 3, shifted, 2);
    MixSize(Val, 1, shifted, 2);
    if And(Shr(s.diffbits, i), 1) != 0 && And(s.diffbits, 2) != 0 {
      if TestMix(a, b, c, d, 0, 3, i, 1) {
        MixWorks(Val, 0, 3, shifted, i, 1, a, b, c, d);
        return Some(MixCode(Val, 3, shifted, 1));
      }
      if TestMix(a, b, c, d, 0, 2, i, 1) {
        MixWorks(Val, 0, 2, shifted, i, 1, a, b, c, d);
        return Some(MixCode(Val, 2, shifted, 1));
      }
    }
    if And(Shr(s.diffbits, i), 2) != 0 && And(s.diffbits, 1) != 0 {
      if TestMix(a, b, c, d, 0, 3, i, 2) {
        MixWorks(Val, 0, 3, shifted, i, 2, a, b, c, d);
        return Some(MixCode(Val, 3, shifted, 2));
      }
      if TestMix(a, b, c, d, 0, 1, i, 2) {
        MixWorks(Val, 0, 1, shifted, i, 2, a, b, c, d);
        return Some(MixCode(Val, 1, shifted, 2));
      }
    }
    return None;
  }

  // No shift below i would do, unless the lowest two bits do already.
  ghost predicate NoneMixes(a: ub4, b: ub4, c: ub4, d: ub4, i: nat) {
    FieldSeparates(a, b, c, d, 0) || forall t: nat {:trigger Mixes(a, b, c, d, t)} :: t < i ==> !Mixes(a, b, c, d, t)
  }

  lemma NoneMixesBelow(a: ub4, b: ub4, c: ub4, d: ub4, s: Span)
    requires s.Covers([a, b, c, d])
    ensures NoneMixes(a, b, c, d, s.lowbit)
  {
    if !FieldSeparates(a, b, c, d, 0) {
      forall t: nat | t < s.lowbit ensures !Mixes(a, b, c, d, t) { SkippedMixFails(a, b, c, d, s, t); }
    }
  }

  lemma NoneMixesStep(a: ub4, b: ub4, c: ub4, d: ub4, i: nat, next: nat)
    requires NoneMixes(a, b, c, d, i) && next == i + 1 && (FieldSeparates(a, b, c, d, 0) || !Mixes(a, b, c, d, i))
    ensures NoneMixes(a, b, c, d, next)
  {
  }

  lemma NoneMixesAbove(a: ub4, b: ub4, c: ub4, d: ub4, s: Span, i: nat)
    requires s.Covers([a, b, c, d]) && (And(s.diffbits, 3) == 0 || (i > s.highbit && NoneMixes(a, b, c, d, i)))
    ensures FieldSeparates(a, b, c, d, 0) || forall t: nat :: !Mixes(a, b, c, d, t)
  {
    if !FieldSeparates(a, b, c, d, 0) {
      forall t: nat ensures !Mixes(a, b, c, d, t) { SkippedMixFails(a, b, c, d, s, t); }
    }
  }

  /** Four instructions, one shift.  Failure, where no two-bit field separates the keys, means that no shift does. */
  method FourInstructionsLinear(a: ub4, b: ub4, c: ub4, d: ub4, s: Span) returns (r: Option<Code>)
    requires s.Covers([a, b, c, d])
    ensures r.None? || Solves4(r.value, a, b, c, d, 4)
    ensures r.None? ==> FieldSeparates(a, b, c, d, 0) || forall i: nat :: !Mixes(a, b, c, d, i)
  {
    var i := s.lowbit;
    if And(s.diffbits, 3) != 0 {
      NoneMixesBelow(a, b, c, d, s);
      while i <= s.highbit
        invariant s.lowbit <= i && NoneMixes(a, b, c, d, i)
      {
        var next := i + 1;
        r := FourInstructionsAt(a, b, c, d, s, i);
        if r.Some? {
          return;
        }
        NoneMixesStep(a, b, c, d, i, next);
        i := next;
      }
    }
    NoneMixesAbove(a, b, c, d, s, i);
    return None;
  }

  // What the four-instruction quadratic search tests: the second operand is always a field of key a.
  function SumWithA(a: ub4, k: ub4, i: nat, j: nat): nat { LowBits(Plus(Shr(k, i), Shr(a, j))) }
  function DiffWithA(a: ub4, k: ub4, i: nat, j: nat): nat { LowBits(Minus(Shr(k, i), Shr(a, j))) }
  function XorWithA(a: ub4, k: ub4, i: nat, j: nat): nat { LowBits(Xor(Shr(k, i), Shr(a, j))) }

  lemma FieldDecides(a: ub4, k: ub4, l: ub4, i: nat, j: nat)
    requires TwoBits(k, i) == TwoBits(l, i)
    ensures SumWithA(a, k, i, j) == SumWithA(a, l, i, j)
    ensures DiffWithA(a, k, i, j) == DiffWithA(a, l, i, j)
    ensures XorWithA(a, k, i, j) == XorWithA(a, l, i, j)
  {
    var x, y, z := Shr(k, i), Shr(l, i), Shr(a, j);
    Masks(x);
    Masks(y);
    assert x % 4 == y % 4;
    SameResidue(x, y, z);
    Masks(Plus(x, z));
    Masks(Plus(y, z));
    Masks(Minus(x, z));
    Masks(Minus(y, z));
    Masks(Xor(x, z));
    Masks(Xor(y, z));
    BitOfXor(x, z, 0);
    BitOfXor(x, z, 1);
    BitOfXor(y, z, 0);
    BitOfXor(y, z, 1);
  }

  lemma SomeFieldCollides(a: ub4, b: ub4, c: ub4, d: ub4, i: nat)
    requires !FieldSeparates(a, b, c, d, i)
    ensures !Distinct4(TwoBits(a, i), TwoBits(b, i), TwoBits(c, i), TwoBits(d, i))
  {
  }

  /**
    Four instructions, two shifts (the h4l, h4m and h4n tests).  Because they combine every key with a
    field of key a they can only succeed where the two-bit field alone would have: they are never taken.
   */
  method FourInstructionsQuadratic(a: ub4, b: ub4, c: ub4, d: ub4, s: Span) returns (r: Option<Code>)
    requires forall i: nat :: !FieldSeparates(a, b, c, d, i)
    ensures r.None?
  {
    var i := s.lowbit;
    while i <= s.highbit {
      if And(Shr(s.diffbits, i), 1) == 1 {
        var j := s.lowbit;
        while j <= s.highbit {
          NoneWithA(a, b, c, d, i, j);
          var sum := One(Mask(PlusE(ShiftR(Val, i), ShiftR(Val, j)), 3));
          var diff := One(Mask(MinusE(ShiftR(Val, i), ShiftR(Val, j)), 3));
          var xor := One(Mask(XorE(ShiftR(Val, i), ShiftR(Val, j)), 3));
          if And(Shr(s.diffbits, j), 3) != 0 {
            if TestFour(SumWithA(a, a, i, j), SumWithA(a, b, i, j), SumWithA(a, c, i, j), SumWithA(a, d, i, j)) {
              return Some(sum);
            }
            if TestFour(DiffWithA(a, a, i, j), DiffWithA(a, b, i, j), DiffWithA(a, c, i, j), DiffWithA(a, d, i, j)) {
              return Some(diff);
            }
            if TestFour(XorWithA(a, a, i, j), XorWithA(a, b, i, j), XorWithA(a, c, i, j), XorWithA(a, d, i, j)) {
              return Some(xor);
            }
          }
          j := j + 1;
        }
      }
      i := i + 1;
    }
    return None;
  }

  lemma NoneWithA(a: ub4, b: ub4, c: ub4, d: ub4, i: nat, j: nat)
    requires !FieldSeparates(a, b, c, d, i)
    ensures !Distinct4(SumWithA(a, a, i, j), SumWithA(a, b, i, j), SumWithA(a, c, i, j), SumWithA(a, d, i, j))
    ensures !Distinct4(DiffWithA(a, a, i, j), DiffWithA(a, b, i, j), DiffWithA(a, c, i, j), DiffWithA(a, d, i, j))
    ensures !Distinct4(XorWithA(a, a, i, j), XorWithA(a, b, i, j), XorWithA(a, c, i, j), XorWithA(a, d, i, j))
  {
    SomeFieldCollides(a, b, c, d, i);
    if TwoBits(a, i) == TwoBits(b, i) {
      FieldDecides(a, a, b, i, j);
    } else if TwoBits(a, i) == TwoBits(c, i) {
      FieldDecides(a, a, c, i, j);
    } else if TwoBits(a, i) == TwoBits(d, i) {
      FieldDecides(a, a, d, i, j);
    } else if TwoBits(b, i) == TwoBits(c, i) {
      FieldDecides(a, b, c, i, j);
    } else if TwoBits(b, i) == TwoBits(d, i) {
      FieldDecides(a, b, d, i, j);
    } else {
      FieldDecides(a, c, d, i, j);
    }
  }

  function ShiftedUp(k: ub4, j: nat): nat { LowBits(Xor(Shr(k, j), Shl(k, 1))) }

  lemma MixBits(k: ub4, j: nat, i: nat)
    ensures Mix(k, j, 2, i, 1) == Pair(Bit(k, i), Bit(k, j + 1))
    ensures Mix(k, i, 1, j, 2) == Pair(Bit(k, i), Bit(k, j + 1))
  {
    Fields(k, i);
    Fields(k, j);
    XorOfPairs(false, Bit(k, j + 1), Bit(k, i), false);
    XorOfPairs(Bit(k, i), false, false, Bit(k, j + 1));
  }

  lemma TellingBitsDiffer(a: ub4, b: ub4, c: ub4, d: ub4, s: Span, p: nat, q: nat)
    requires s.Covers([a, b, c, d]) && p < q && Tells4(a, b, c, d, p, q)
    ensures And(Shr(s.diffbits, p), 1) == 1 && And(Shr(s.diffbits, q - 1), 3) != 0
    ensures s.lowbit <= p <= q - 1 < s.highbit
  {
    DiffBitsOfFour(a, b, c, d, s, p);
    DiffBitsOfFour(a, b, c, d, s, q);
    Fields(s.diffbits, p);
    Fields(s.diffbits, q - 1);
  }

  lemma ShiftedUpIs(k: ub4, j: nat)
    ensures ShiftedUp(k, j) == Pair(Bit(k, j), Bit(k, j + 1) != Bit(k, 0))
  {
    var x, y := Shr(k, j), Shl(k, 1);
    Masks(Xor(x, y));
    BitOfXor(x, y, 0);
    BitOfXor(x, y, 1);
    ShrShr(k, j, 1);
    assert Pow2(1) == 2;
    Masks(y);
    WordKeepsResidue(k * 2);
    Quads(k * 2, k / 2, 2 * (k % 2));
  }

  /** The test of val >> j against bit i, moved to the place of the second bit. */
  predicate MovedUp(a: ub4, b: ub4, c: ub4, d: ub4, j: nat, i: nat) {
    if i == 0 then TestFour(ShiftedUp(a, j), ShiftedUp(b, j), ShiftedUp(c, j), ShiftedUp(d, j))
    else TestMix(a, b, c, d, j, 3, i - 1, 2)
  }

  lemma MovedUpNeeds(a: ub4, b: ub4, c: ub4, d: ub4, j: nat, i: nat)
    requires !FieldSeparates(a, b, c, d, j)
    ensures MovedUp(a, b, c, d, j, i) ==> !Constant4(a, b, c, d, i) && !Constant4(a, b, c, d, j)
  {
    if i == 0 {
      ShiftedUpIs(a, j);
      ShiftedUpIs(b, j);
      ShiftedUpIs(c, j);
      ShiftedUpIs(d, j);
      TwoBitsAre(a, j);
      TwoBitsAre(b, j);
      TwoBitsAre(c, j);
      TwoBitsAre(d, j);
    } else {
      MixNeeds(a, b, c, d, j, i - 1);
    }
  }

  /** Does one of the tests of the five-instruction search at positions i and j separate the keys? */
  predicate MixesAt(a: ub4, b: ub4, c: ub4, d: ub4, i: nat, j: nat) {
    || TestMix(a, b, c, d, j, 3, i, 1) || TestMix(a, b, c, d, j, 2, i, 1)
    || MovedUp(a, b, c, d, j, i) || TestMix(a, b, c, d, j, 1, i, 2)
  }

  // With bit j the same in all keys, val >> j against bit i asks whether bits i and j + 1 tell the keys apart.
  lemma MixIsPair(a: ub4, b: ub4, c: ub4, d: ub4, j: nat, i: nat)
    requires Constant4(a, b, c, d, j)
    ensures TestMix(a, b, c, d, j, 3, i, 1) ==> Tells4(a, b, c, d, i, j + 1)
  {
    MixFields(a, j, i);
    MixFields(b, j, i);
    MixFields(c, j, i);
    MixFields(d, j, i);
  }

  /**
    Positions that the search skips would fail, where no two-bit field separates the keys and no two bits tell them
    apart.
   */
  lemma SkippedPositionsFail(a: ub4, b: ub4, c: ub4, d: ub4, s: Span, i: nat, j: nat)
    requires s.Covers([a, b, c, d]) && !FieldSeparates(a, b, c, d, j)
    requires forall p: nat, q: nat :: p < q ==> !Tells4(a, b, c, d, p, q)
    ensures MixesAt(a, b, c, d, i, j) ==>
      And(Shr(s.diffbits, i), 1) != 0 && s.lowbit <= i <= s.highbit && s.lowbit <= j <= s.highbit
  {
    TellsNeeds(a, b, c, d, i, j + 1);
    TellsNeeds(a, b, c, d, j, i + 1);
    PairNeeds(a, b, c, d, j, i);
    MixNeeds(a, b, c, d, j, i);
    MovedUpNeeds(a, b, c, d, j, i);
    VaryingBits(a, b, c, d, s, i);
    VaryingBits(a, b, c, d, s, j);
    if Constant4(a, b, c, d, j) {
      MixIsPair(a, b, c, d, j, i);
    }
  }

  lemma ShiftedUpWorks(a: ub4, b: ub4, c: ub4, d: ub4, j: nat)
    requires j < UB4BITS && TestFour(ShiftedUp(a, j), ShiftedUp(b, j), ShiftedUp(c, j), ShiftedUp(d, j))
    ensures Works(One(Mask(XorE(ShiftR(Val, j), ShiftL(Val, 1)), 3)), a, b, c, d)
  {
    Unfold();
  }

  // Where both bits of val >> j are the same in all keys, its tests against bit i fail.
  lemma ConstantPairFails(a: ub4, b: ub4, c: ub4, d: ub4, s: Span, i: nat, j: nat)
    requires s.Covers([a, b, c, d]) && And(Shr(s.diffbits, j), 3) == 0
    ensures !TestMix(a, b, c, d, j, 3, i, 1) && !TestMix(a, b, c, d, j, 2, i, 1)
  {
    VaryingBits(a, b, c, d, s, j);
    MixIsPair(a, b, c, d, j, i);
    PairNeeds(a, b, c, d, j, i);
    TellsNeeds(a, b, c, d, i, j + 1);
  }

  /** The tests of the five-instruction search at one pair of positions. */
  method FiveInstructionsAt(a: ub4, b: ub4, c: ub4, d: ub4, s: Span, i: nat, j: nat) returns (r: Option<Code>)
    requires s.Covers([a, b, c, d]) && i <= s.highbit && j <= s.highbit
    ensures r.None? || Solves4(r.value, a, b, c, d, 5)
    ensures r.None? ==> !MixesAt(a, b, c, d, i, j)
  {
    var shiftI, shiftJ := ShiftR(Val, i), ShiftR(Val, j);
    Count();
    if And(Shr(s.diffbits, j), 3) == 0 {
      ConstantPairFails(a, b, c, d, s, i, j);
    }
    if And(Shr(s.diffbits, j), 3) != 0 {
      if TestMix(a, b, c, d, j, 3, i, 1) {
        MixWorks(shiftJ, j, 3, shiftI, i, 1, a, b, c, d);
        return Some(MixCode(shiftJ, 3, shiftI, 1));
      }
      if TestMix(a, b, c, d, j, 2, i, 1) {
        MixWorks(shiftJ, j, 2, shiftI, i, 1, a, b, c, d);
        return Some(MixCode(shiftJ, 2, shiftI, 1));
      }
    }
    if i == 0 {
      if TestFour(ShiftedUp(a, j), ShiftedUp(b, j), ShiftedUp(c, j), ShiftedUp(d, j)) {
        ShiftedUpWorks(a, b, c, d, j);
        return Some(One(Mask(XorE(shiftJ, ShiftL(Val, 1)), 3)));
      }
    } else if TestMix(a, b, c, d, j, 3, i - 1, 2) {
      var text := if i == 1 then Val else ShiftR(Val, i - 1);
      MixWorks(shiftJ, j, 3, text, i - 1, 2, a, b, c, d);
      return Some(MixCode(shiftJ, 3, text, 2));
    }
    if TestMix(a, b, c, d, j, 1, i, 2) {
      MixWorks(shiftJ, j, 1, shiftI, i, 2, a, b, c, d);
      return Some(MixCode(shiftJ, 1, shiftI, 2));
    }
    return None;
  }

  // No test succeeds at position i, if its bit varies, with any position in range.
  ghost predicate RowFails(a: ub4, b: ub4, c: ub4, d: ub4, s: Span, i: nat) {
    And(Shr(s.diffbits, i), 1) != 0 ==>
      forall j: nat {:trigger MixesAt(a, b, c, d, i, j)} :: s.lowbit <= j <= s.highbit ==> !MixesAt(a, b, c, d, i, j)
  }

  method FiveInstructionsRow(a: ub4, b: ub4, c: ub4, d: ub4, s: Span, i: nat) returns (r: Option<Code>)
    requires s.Covers([a, b, c, d]) && i <= s.highbit
    ensures r.None? || Solves4(r.value, a, b, c, d, 5)
    ensures r.None? ==> RowFails(a, b, c, d, s, i)
  {
    if And(Shr(s.diffbits, i), 1) != 0 {
      var j := s.lowbit;
      while j <= s.highbit
        invariant s.lowbit <= j && NoneMixesAt(a, b, c, d, s, i, j)
      {
        var next := j + 1;
        r := FiveInstructionsAt(a, b, c, d, s, i, j);
        if r.Some? {
          return;
        }
        NoneMixesAtStep(a, b, c, d, s, i, j, next);
        j := next;
      }
      RowIsDone(a, b, c, d, s, i, j);
    }
    return None;
  }

  ghost predicate NoneMixesAt(a: ub4, b: ub4, c: ub4, d: ub4, s: Span, i: nat, j: nat) {
    forall k: nat {:trigger MixesAt(a, b, c, d, i, k)} :: s.lowbit <= k < j ==> !MixesAt(a, b, c, d, i, k)
  }

  lemma NoneMixesAtStep(a: ub4, b: ub4, c: ub4, d: ub4, s: Span, i: nat, j: nat, next: nat)
    requires NoneMixesAt(a, b, c, d, s, i, j) && !MixesAt(a, b, c, d, i, j) && next == j + 1
    ensures NoneMixesAt(a, b, c, d, s, i, next)
  {
  }

  lemma RowIsDone(a: ub4, b: ub4, c: ub4, d: ub4, s: Span, i: nat, j: nat)
    requires NoneMixesAt(a, b, c, d, s, i, j) && j > s.highbit
    ensures RowFails(a, b, c, d, s, i)
  {
  }

  lemma AllRowsFail(a: ub4, b: ub4, c: ub4, d: ub4, s: Span)
    requires s.Covers([a, b, c, d])
    requires forall i {:trigger RowFails(a, b, c, d, s, i)} :: s.lowbit <= i <= s.highbit ==> RowFails(a, b, c, d, s, i)
    ensures forall p: nat, q: nat :: p < q ==> !Tells4(a, b, c, d, p, q)
    ensures (forall t: nat :: !FieldSeparates(a, b, c, d, t)) ==> forall i: nat, j: nat :: !MixesAt(a, b, c, d, i, j)
  {
    forall p: nat, q: nat | p < q ensures !Tells4(a, b, c, d, p, q) {
      if Tells4(a, b, c, d, p, q) {
        TellingBitsDiffer(a, b, c, d, s, p, q);
        PairNeeds(a, b, c, d, q - 1, p);
        assert RowFails(a, b, c, d, s, p) && MixesAt(a, b, c, d, p, q - 1);
      }
    }
    if forall t: nat :: !FieldSeparates(a, b, c, d, t) {
      forall i: nat, j: nat ensures !MixesAt(a, b, c, d, i, j) {
        SkippedPositionsFail(a, b, c, d, s, i, j);
        assert s.lowbit <= i <= s.highbit ==> RowFails(a, b, c, d, s, i);
      }
    }
  }

  /**
    Five instructions.  Whatever two bits tell all four keys apart are found here at the latest, and failure, where no
    two-bit field separates the keys, means that none of the tests succeeds at any two positions.
   */
  method FiveInstructions(a: ub4, b: ub4, c: ub4, d: ub4, s: Span) returns (r: Option<Code>)
    requires s.Covers([a, b, c, d])
    ensures r.None? || Solves4(r.value, a, b, c, d, 5)
    ensures r.None? ==> forall p: nat, q: nat :: p < q ==> !Tells4(a, b, c, d, p, q)
    ensures r.None? && (forall t: nat :: !FieldSeparates(a, b, c, d, t)) ==>
      forall i: nat, j: nat :: !MixesAt(a, b, c, d, i, j)
  {
    var i := s.lowbit;
    while i <= s.highbit
      invariant s.lowbit <= i
      invariant forall p {:trigger RowFails(a, b, c, d, s, p)} :: s.lowbit <= p < i ==> RowFails(a, b, c, d, s, p)
    {
      r := FiveInstructionsRow(a, b, c, d, s, i);
      if r.Some? {
        return;
      }
      i := i + 1;
    }
    AllRowsFail(a, b, c, d, s);
    return None;
  }

  /**
    The instructions that the search allows: fewer ones wherever a test for them succeeds at any shifts.  What the last
    block of hexfour emits takes nine at most.
   */
  ghost function Budget4(a: ub4, b: ub4, c: ub4, d: ub4): (r: nat)
    ensures 1 <= r <= 9
  {
    if FieldSeparates(a, b, c, d, 0) || FieldSeparates(a, b, c, d, UB4BITS - 2) then 1
    else if exists i: nat :: FieldSeparates(a, b, c, d, i) then 2
    else if exists i: nat :: Combines(a, b, c, d, i) then 3
    else if exists i: nat :: Mixes(a, b, c, d, i) then 4
    else if exists i: nat, j: nat :: MixesAt(a, b, c, d, i, j) then 5
    else 9
  }
}
