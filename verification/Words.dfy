/**
  The unsigned 32-bit integers (ub4) of lib/perfect as numbers, with the C operators on them
  defined place by place so that everything about them is proved by induction on bits.
 */
module Words {
  const UB4BITS: nat := 32
  const WORD: nat := 0x1_0000_0000

  type ub4 = x: int | 0 <= x < WORD

  function Pow2(n: nat): (p: nat)
    ensures p > 0
  {
    if n == 0 then 1 else 2 * Pow2(n - 1)
  }

  function Xor(x: nat, y: nat): nat
    decreases x + y
  {
    if x == 0 && y == 0 then 0 else (if x % 2 != y % 2 then 1 else 0) + 2 * Xor(x / 2, y / 2)
  }

  function And(x: nat, y: nat): nat
    decreases x + y
  {
    if x == 0 && y == 0 then 0 else (if x % 2 == 1 && y % 2 == 1 then 1 else 0) + 2 * And(x / 2, y / 2)
  }

  function Or(x: nat, y: nat): nat
    decreases x + y
  {
    if x == 0 && y == 0 then 0 else (if x % 2 == 1 || y % 2 == 1 then 1 else 0) + 2 * Or(x / 2, y / 2)
  }

  function Shr(x: nat, n: nat): nat {
    if n == 0 then x else Shr(x / 2, n - 1)
  }

  // Addition, subtraction and left shift wrap around at the word size.
  function Plus(x: nat, y: nat): ub4 { (x + y) % WORD }
  function Minus(x: nat, y: nat): ub4 { (x - y) % WORD }
  function Shl(x: nat, n: nat): ub4 { (x * Pow2(n)) % WORD }

  /** Bit i of x. */
  predicate Bit(x: nat, i: nat) {
    Shr(x, i) % 2 == 1
  }

  lemma {:induction false} ShrZero(n: nat)
    ensures Shr(0, n) == 0
  {
    if n > 0 {
      ShrZero(n - 1);
    }
  }

  lemma {:induction false} ShrStep(x: nat, n: nat)
    ensures Shr(x, n + 1) == Shr(x, n) / 2
  {
    if n > 0 {
      ShrStep(x / 2, n - 1);
    }
  }

  lemma {:induction false} ShrShr(x: nat, m: nat, n: nat)
    ensures Shr(Shr(x, m), n) == Shr(x, m + n)
  {
    if m > 0 {
      ShrShr(x / 2, m - 1, n);
    }
  }

  lemma {:induction false} ShrBound(x: nat, m: nat, n: nat)
    requires x < Pow2(m + n)
    ensures Shr(x, n) < Pow2(m)
  {
    if n > 0 {
      ShrBound(x / 2, m, n - 1);
    }
  }

  lemma {:induction false} BitOfXor(x: nat, y: nat, i: nat)
    ensures Bit(Xor(x, y), i) <==> Bit(x, i) != Bit(y, i)
  {
    if i > 0 {
      BitOfXor(x / 2, y / 2, i - 1);
      ShrZero(i - 1);
    }
  }

  lemma {:induction false} BitOfAnd(x: nat, y: nat, i: nat)
    ensures Bit(And(x, y), i) <==> Bit(x, i) && Bit(y, i)
  {
    if i > 0 {
      BitOfAnd(x / 2, y / 2, i - 1);
      ShrZero(i - 1);
    }
  }

  lemma {:induction false} BitOfOr(x: nat, y: nat, i: nat)
    ensures Bit(Or(x, y), i) <==> Bit(x, i) || Bit(y, i)
  {
    if i > 0 {
      BitOfOr(x / 2, y / 2, i - 1);
      ShrZero(i - 1);
    }
  }

  lemma {:induction false} BitOfPow2(m: nat, i: nat)
    ensures Bit(Pow2(m), i) <==> i == m
  {
    if i > 0 {
      if m == 0 {
        ShrZero(i - 1);
      } else {
        BitOfPow2(m - 1, i - 1);
      }
    }
  }

  lemma {:induction false} NoHighBits(x: nat, n: nat, i: nat)
    requires x < Pow2(n) && n <= i
    ensures !Bit(x, i)
  {
    if n == 0 {
      ShrZero(i);
    } else {
      NoHighBits(x / 2, n - 1, i - 1);
    }
  }

  /** Two numbers of at most n bits that agree on every bit are equal. */
  lemma {:induction false} SameBits(x: nat, y: nat, n: nat)
    requires x < Pow2(n) && y < Pow2(n)
    requires forall i: nat :: i < n ==> Bit(x, i) == Bit(y, i)
    ensures x == y
  {
    if n > 0 {
      assert Bit(x, 0) == Bit(y, 0);
      forall i: nat | i < n - 1
        ensures Bit(x / 2, i) == Bit(y / 2, i)
      {
        assert Bit(x, i + 1) == Bit(y, i + 1);
      }
      SameBits(x / 2, y / 2, n - 1);
    }
  }

  lemma Pow2Word()
    ensures Pow2(UB4BITS) == WORD
  {
    assert Pow2(8) == 0x100;
    Pow2Sum(8, 8);
    Pow2Sum(16, 16);
  }

  lemma {:induction false} Pow2Sum(m: nat, n: nat)
    ensures Pow2(m + n) == Pow2(m) * Pow2(n)
  {
    if m > 0 {
      Pow2Sum(m - 1, n);
    }
  }

  lemma {:induction false} Pow2Less(m: nat, n: nat)
    requires m < n
    ensures Pow2(m) < Pow2(n)
  {
    if m < n - 1 {
      Pow2Less(m, n - 1);
    }
  }

  lemma DifferAt(a: ub4, b: ub4) returns (i: nat)
    requires a != b
    ensures i < 32 && Bit(a, i) != Bit(b, i)
  {
    Pow2Word();
    if forall t: nat :: t < 32 ==> Bit(a, t) == Bit(b, t) {
      SameBits(a, b, 32);
    }
    i :| i < 32 && Bit(a, i) != Bit(b, i);
  }

  lemma {:induction false} XorBound(x: nat, y: nat, n: nat)
    requires x < Pow2(n) && y < Pow2(n)
    ensures Xor(x, y) < Pow2(n)
  {
    if n > 0 {
      XorBound(x / 2, y / 2, n - 1);
    }
  }

  lemma {:induction false} XorComm(x: nat, y: nat)
    ensures Xor(x, y) == Xor(y, x)
    decreases x + y
  {
    if x > 0 || y > 0 {
      XorComm(x / 2, y / 2);
    }
  }

  /** Xor with a fixed word undoes itself, so it is one-to-one. */
  lemma {:induction false} XorCancel(x: nat, y: nat)
    ensures Xor(Xor(x, y), y) == x
    decreases x + y
  {
    if x > 0 || y > 0 {
      XorCancel(x / 2, y / 2);
      assert Xor(x, y) % 2 == (if x % 2 != y % 2 then 1 else 0);
      assert Xor(x, y) / 2 == Xor(x / 2, y / 2);
    }
  }

  lemma {:induction false} XorZero(x: nat)
    ensures Xor(x, 0) == x && Xor(x, x) == 0
  {
    if x > 0 {
      XorZero(x / 2);
    }
  }

  /** The value of bits 0 and 1. */
  function Pair(lo: bool, hi: bool): (r: ub4)
    ensures r < 4
  {
    if hi then if lo then 3 else 2 else if lo then 1 else 0
  }

  lemma AndZero(x: nat)
    ensures And(x, 0) == 0
  {
  }

  lemma Masks(x: nat)
    ensures And(x, 1) == x % 2 == Pair(Bit(x, 0), false)
    ensures And(x, 2) == Pair(false, Bit(x, 1))
    ensures And(x, 3) == x % 4 == Pair(Bit(x, 0), Bit(x, 1))
  {
    assert Shr(x, 1) == x / 2;
    AndZero(x / 2);
    AndZero(x / 2 / 2);
    assert And(x / 2, 1) == (x / 2) % 2;
  }

  lemma XorOfPairs(p: bool, q: bool, p': bool, q': bool)
    ensures Xor(Pair(p, q), Pair(p', q')) == Pair(p != p', q != q')
  {
    var x, y := Pair(p, q), Pair(p', q');
    assert Xor(x / 2, y / 2) == if q != q' then 1 else 0 by {
      assert Xor(x / 2 / 2, y / 2 / 2) == 0;
    }
  }
}
