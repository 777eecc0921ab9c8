/** Three integer keys: setlow, find_adder and hexthree of lib/perfect/perfhex.c. */
module HexThree {
  import opened Basics
  import opened HexCode
  import opened Words

  /** A fatal exit of the program is a value here, so that its absence can be stated. */
  datatype Result = Ok(code: Code) | DuplicateKeys | Fatal

  /** Do the keys disagree at bit t? */
  predicate Varies(keys: seq<ub4>, t: nat) {
    exists n :: 0 <= n < |keys| && Bit(keys[n], t) != Bit(keys[0], t)
  }

  /** final->diffbits, final->lowbit and final->highbit. */
  datatype Span = Span(diffbits: nat, lowbit: nat, highbit: nat) {
    ghost predicate Covers(keys: seq<ub4>) {
      && highbit < 32
      && (forall t: nat :: Bit(diffbits, t) <==> Varies(keys, t))
      && (forall t: nat :: Bit(diffbits, t) ==> lowbit <= t <= highbit)
    }
  }

  lemma VariesStep(keys: seq<ub4>, n: nat, t: nat)
    requires n < |keys|
    ensures Varies(keys[..n + 1], t) <==> Varies(keys[..n], t) || Bit(keys[n], t) != Bit(keys[0], t)
  {
    var prefix, longer := keys[..n], keys[..n + 1];
    assert n > 0 ==> longer[0] == prefix[0];
    assert forall m :: 0 <= m < n ==> longer[m] == prefix[m];
    if Bit(keys[n], t) != Bit(keys[0], t) {
      assert longer[n] == keys[n];
    }
  }

  lemma DiffStep(diff: nat, keys: seq<ub4>, n: nat, t: nat)
    requires n < |keys|
    requires Bit(diff, t) <==> Varies(keys[..n], t)
    ensures Bit(Or(diff, Xor(keys[0], keys[n])), t) <==> Varies(keys[..n + 1], t)
  {
    BitOfOr(diff, Xor(keys[0], keys[n]), t);
    BitOfXor(keys[0], keys[n], t);
    VariesStep(keys, n, t);
  }

  /** The interesting bits: exactly those where some keys differ, and the lowest and highest of them. */
  method SetLow(keys: seq<ub4>) returns (s: Span)
    requires |keys| > 0
    ensures s.Covers(keys)
    ensures s.lowbit < 32 ==> Bit(s.diffbits, s.lowbit) && Bit(s.diffbits, s.highbit)
  {
    var diff := 0;
    var n := 0;
    forall t: nat ensures Bit(diff, t) <==> Varies(keys[..n], t) { ShrZero(t); }
    while n < |keys|
      invariant 0 <= n <= |keys|
      invariant forall t: nat :: Bit(diff, t) <==> Varies(keys[..n], t)
    {
      var next := Or(diff, Xor(keys[0], keys[n]));
      forall t: nat ensures Bit(next, t) <==> Varies(keys[..n + 1], t) { DiffStep(diff, keys, n, t); }
      diff := next;
      n := n + 1;
    }
    assert keys[..n] == keys;
    forall t: nat | t >= 32 ensures !Bit(diff, t) { NothingAbove31(keys, t); }
    var low := 0;
    while low < UB4BITS && !Bit(diff, low)
      invariant low <= 32
      invariant forall t: nat :: t < low ==> !Bit(diff, t)
    {
      low := low + 1;
    }
    var high := UB4BITS - 1;
    while high != 0 && !Bit(diff, high)
      invariant 0 <= high < 32
      invariant forall t: nat :: high < t ==> !Bit(diff, t)
    {
      high := high - 1;
    }
    s := Span(diff, low, high);
  }

  lemma NothingAbove31(keys: seq<ub4>, t: nat)
    requires t >= 32
    ensures !Varies(keys, t)
  {
    Pow2Word();
    forall n | 0 <= n < |keys| ensures !Bit(keys[n], t) { NoHighBits(keys[n], 32, t); }
  }

  /** What to xor to three distinct values below 4 so that the unused one becomes 3. */
  function FindAdder(a: nat, b: nat, c: nat): nat {
    Xor(Xor(Xor(a, b), c), 3)
  }

  lemma AsPair(x: nat)
    requires x < 4
    ensures x == Pair(x % 2 == 1, x >= 2)
  {
  }

  lemma FindAdderMovesHoleTo3(a: nat, b: nat, c: nat)
    requires a < 4 && b < 4 && c < 4 && Distinct3(a, b, c)
    ensures var s := FindAdder(a, b, c);
      s < 4 && Distinct3(Xor(a, s), Xor(b, s), Xor(c, s)) && Xor(a, s) < 3 && Xor(b, s) < 3 && Xor(c, s) < 3
  {
    var p, q := a % 2 == 1, a >= 2;
    var p', q' := b % 2 == 1, b >= 2;
    var p'', q'' := c % 2 == 1, c >= 2;
    AsPair(a);
    AsPair(b);
    AsPair(c);
    AsPair(3);
    XorOfPairs(p, q, p', q');
    XorOfPairs(p != p', q != q', p'', q'');
    var u, v := (p != p') != p'', (q != q') != q'';
    XorOfPairs(u, v, true, true);
    XorOfPairs(p, q, !u, !v);
    XorOfPairs(p', q', !u, !v);
    XorOfPairs(p'', q'', !u, !v);
  }

  /** The line printed for a separating expression: corrected by find_adder only if minimal and 3 is hit. */
  function Emit(rsl: Expr, minimal: bool, x: nat, y: nat, z: nat): Code {
    if !minimal || (x != 3 && y != 3 && z != 3) then One(rsl) else One(XorE(rsl, Num(FindAdder(x, y, z))))
  }

  lemma EmitHashes(rsl: Expr, minimal: bool, a: ub4, b: ub4, c: ub4, x: nat, y: nat, z: nat)
    requires ShiftsDefined(rsl)
    requires Eval(rsl, Env(a, 0, 0)) == x && Eval(rsl, Env(b, 0, 0)) == y && Eval(rsl, Env(c, 0, 0)) == z
    requires x < 4 && y < 4 && z < 4 && Distinct3(x, y, z)
    ensures Defined(Emit(rsl, minimal, x, y, z)) && Hashes3(Emit(rsl, minimal, x, y, z), minimal, a, b, c)
  {
    FindAdderMovesHoleTo3(x, y, z);
    Unfold();
  }

  lemma EmitSize(rsl: Expr, minimal: bool, x: nat, y: nat, z: nat)
    ensures Instructions(Emit(rsl, minimal, x, y, z)) <= Size(rsl) + if minimal then 1 else 0
  {
    Count();
  }

  /** Do bits p and q together tell the three keys apart? */
  predicate Tells3(a: ub4, b: ub4, c: ub4, p: nat, q: nat) {
    Distinct3(Pair(Bit(a, p), Bit(a, q)), Pair(Bit(b, p), Bit(b, q)), Pair(Bit(c, p), Bit(c, q)))
  }

  predicate Constant3(a: ub4, b: ub4, c: ub4, t: nat) {
    Bit(a, t) == Bit(b, t) && Bit(b, t) == Bit(c, t)
  }

  lemma SomeTwoBitsTell(a: ub4, b: ub4, c: ub4) returns (p: nat, q: nat)
    requires Distinct3(a, b, c)
    ensures p < q < 32 && Tells3(a, b, c, p, q)
  {
    p := DifferAt(a, b);
    if Bit(c, p) == Bit(b, p) {
      q := DifferAt(b, c);
    } else {
      q := DifferAt(a, c);
    }
    if q < p {
      p, q := q, p;
    }
  }

  /** Of the telling pairs take the closest together: between its bits the keys all agree. */
  lemma {:induction false} ClosestPair(a: ub4, b: ub4, c: ub4, p: nat, q: nat) returns (i: nat, j: nat)
    requires p < q && Tells3(a, b, c, p, q)
    ensures p <= i < j <= q && Tells3(a, b, c, i, j)
    ensures forall t: nat :: i < t < j ==> Constant3(a, b, c, t)
    decreases q - p
  {
    if t: nat :| p < t < q && !Constant3(a, b, c, t) {
      if Tells3(a, b, c, p, t) {
        i, j := ClosestPair(a, b, c, p, t);
      } else {
        i, j := ClosestPair(a, b, c, t, q);
      }
    } else {
      i, j := p, q;
    }
  }

  // The values that hexthree tests; each is what the expression printed beside it computes.
  function LowBits(x: nat): (r: nat)
    ensures r < 4
  {
    Masks(x);
    And(x, 3)
  }

  function TwoBits(k: ub4, i: nat): nat { LowBits(Shr(k, i)) }
  function SumBits(k: ub4, i: nat): nat { LowBits(Plus(k, Shr(k, i))) }
  lemma Quads(n: int, q: int, r: int)
    requires n == 4 * q + r
    ensures n % 4 == r % 4
  {
    assert n == 4 * (q + r / 4) + r % 4;
  }

  lemma WordKeepsResidue(n: int)
    ensures n % WORD % 4 == n % 4
  {
    assert n == WORD * (n / WORD) + n % WORD;
    Quads(n, 0x4000_0000 * (n / WORD), n % WORD);
  }

  lemma SameResidue(x: nat, y: nat, z: nat)
    requires x % 4 == y % 4
    ensures Plus(x, z) % 4 == Plus(y, z) % 4
    ensures Minus(x, z) % 4 == Minus(y, z) % 4
  {
    Quads(x + z, x / 4, x % 4 + z);
    Quads(y + z, y / 4, y % 4 + z);
    Quads(x - z, x / 4, x % 4 - z);
    Quads(y - z, y / 4, y % 4 - z);
    WordKeepsResidue(x + z);
    WordKeepsResidue(y + z);
    WordKeepsResidue(x - z);
    WordKeepsResidue(y - z);
  }

  lemma SameResidues(k: nat, l: nat, x: nat, y: nat)
    requires k % 4 == l % 4 && x % 4 == y % 4
    ensures Plus(k, x) % 4 == Plus(l, y) % 4 && Minus(k, x) % 4 == Minus(l, y) % 4
  {
    SameResidue(k, l, x);
    Quads(l + x, x / 4, x % 4 + l);
    Quads(l + y, y / 4, y % 4 + l);
    Quads(l - x, -(x / 4), l - x % 4);
    Quads(l - y, -(y / 4), l - y % 4);
    WordKeepsResidue(l + x);
    WordKeepsResidue(l + y);
    WordKeepsResidue(l - x);
    WordKeepsResidue(l - y);
  }

  function XorBits(k: ub4, i: nat, j: nat): nat { LowBits(Xor(Shr(k, i), Shr(k, j))) }

  lemma XorBitsAre(k: ub4, i: nat, j: nat)
    ensures XorBits(k, i, j) == Pair(Bit(k, i) != Bit(k, j), Bit(k, i + 1) != Bit(k, j + 1))
  {
    var x := Xor(Shr(k, i), Shr(k, j));
    Masks(x);
    BitOfXor(Shr(k, i), Shr(k, j), 0);
    BitOfXor(Shr(k, i), Shr(k, j), 1);
    ShrShr(k, i, 1);
    ShrShr(k, j, 1);
  }

  lemma TwoBitsAre(k: ub4, i: nat)
    ensures TwoBits(k, i) == Pair(Bit(k, i), Bit(k, i + 1))
  {
    Masks(Shr(k, i));
    ShrShr(k, i, 1);
  }

  // with only agreeing bits between p and q, shifting q down to p + 1 by an xor keeps the keys apart
  lemma ConstantBitsDoNotHide(a: ub4, b: ub4, c: ub4, p: nat, q: nat)
    requires p + 1 < q && Tells3(a, b, c, p, q)
    requires Constant3(a, b, c, p + 1) && Constant3(a, b, c, q - 1)
    ensures Distinct3(XorBits(a, p, q - 1), XorBits(b, p, q - 1), XorBits(c, p, q - 1))
  {
    XorBitsAre(a, p, q - 1);
    XorBitsAre(b, p, q - 1);
    XorBitsAre(c, p, q - 1);
  }

  lemma DifferingBitIsInSpan(a: ub4, b: ub4, c: ub4, s: Span, t: nat)
    requires s.Covers([a, b, c]) && !Constant3(a, b, c, t)
    ensures s.lowbit <= t <= s.highbit
  {
    var keys := [a, b, c];
    assert keys[0] == a && keys[1] == b && keys[2] == c;
    assert Varies(keys, t);
  }

  /** The four-instruction search cannot fail once the two-instruction search has. */
  lemma FourInstructionsSuffice(a: ub4, b: ub4, c: ub4, s: Span) returns (i: nat, j: nat)
    requires Distinct3(a, b, c) && s.Covers([a, b, c])
    requires forall t: nat :: t < s.highbit ==> !Distinct3(TwoBits(a, t), TwoBits(b, t), TwoBits(c, t))
    ensures s.lowbit <= i <= j <= s.highbit
    ensures Distinct3(XorBits(a, i, j), XorBits(b, i, j), XorBits(c, i, j))
  {
    var p, q := SomeTwoBitsTell(a, b, c);
    i, j := ClosestPair(a, b, c, p, q);
    DifferingBitIsInSpan(a, b, c, s, i);
    DifferingBitIsInSpan(a, b, c, s, j);
    TwoBitsAre(a, i);
    TwoBitsAre(b, i);
    TwoBitsAre(c, i);
    assert j != i + 1;
    ConstantBitsDoNotHide(a, b, c, i, j);
    j := j - 1;
  }

  /**
    The instructions that the search allows, before the correction of a minimal hash: fewer ones wherever a test for
    them succeeds at any shift.
   */
  ghost function Budget3(a: ub4, b: ub4, c: ub4): (r: nat)
    ensures 1 <= r <= 4
  {
    if Distinct3(LowBits(a), LowBits(b), LowBits(c)) || Distinct3(Shr(a, 30), Shr(b, 30), Shr(c, 30)) then 1
    else if exists t: nat :: Distinct3(TwoBits(a, t), TwoBits(b, t), TwoBits(c, t)) then 2
    else if exists t: nat :: Distinct3(SumBits(a, t), SumBits(b, t), SumBits(c, t)) then 3
    else 4
  }

  // Fields that reach above the highest differing bit have two values at most.
  lemma FieldAboveFails(a: ub4, b: ub4, c: ub4, s: Span, t: nat)
    requires s.Covers([a, b, c]) && t >= s.highbit
    ensures !Distinct3(TwoBits(a, t), TwoBits(b, t), TwoBits(c, t))
  {
    if !Constant3(a, b, c, t + 1) {
      DifferingBitIsInSpan(a, b, c, s, t + 1);
    }
    TwoBitsAre(a, t);
    TwoBitsAre(b, t);
    TwoBitsAre(c, t);
  }

  lemma SumDecided(k: ub4, l: ub4, t: nat)
    requires LowBits(k) == LowBits(l) && TwoBits(k, t) == TwoBits(l, t)
    ensures SumBits(k, t) == SumBits(l, t)
  {
    Masks(k);
    Masks(l);
    Masks(Shr(k, t));
    Masks(Shr(l, t));
    SameResidues(k, l, Shr(k, t), Shr(l, t));
    Masks(Plus(k, Shr(k, t)));
    Masks(Plus(l, Shr(l, t)));
  }

  // Above the differing bits the summand is the same for all keys.
  lemma SumAboveFails(a: ub4, b: ub4, c: ub4, s: Span, t: nat)
    requires s.Covers([a, b, c]) && t > s.highbit && !Distinct3(LowBits(a), LowBits(b), LowBits(c))
    ensures !Distinct3(SumBits(a, t), SumBits(b, t), SumBits(c, t))
  {
    if !Constant3(a, b, c, t) {
      DifferingBitIsInSpan(a, b, c, s, t);
    }
    if !Constant3(a, b, c, t + 1) {
      DifferingBitIsInSpan(a, b, c, s, t + 1);
    }
    TwoBitsAre(a, t);
    TwoBitsAre(b, t);
    TwoBitsAre(c, t);
    if LowBits(a) == LowBits(b) {
      SumDecided(a, b, t);
    } else if LowBits(a) == LowBits(c) {
      SumDecided(a, c, t);
    } else {
      SumDecided(b, c, t);
    }
  }

  /** The code hashes the keys with n instructions at most, and one more if that has to be corrected for minimal. */
  predicate Solves3(code: Code, minimal: bool, a: ub4, b: ub4, c: ub4, n: nat) {
    Defined(code) && Hashes3(code, minimal, a, b, c) && Instructions(code) <= n + if minimal then 1 else 0
  }

  lemma EmitSolves(rsl: Expr, minimal: bool, a: ub4, b: ub4, c: ub4, x: nat, y: nat, z: nat, n: nat)
    requires ShiftsDefined(rsl) && Size(rsl) <= n
    requires Eval(rsl, Env(a, 0, 0)) == x && Eval(rsl, Env(b, 0, 0)) == y && Eval(rsl, Env(c, 0, 0)) == z
    requires x < 4 && y < 4 && z < 4 && Distinct3(x, y, z)
    ensures Solves3(Emit(rsl, minimal, x, y, z), minimal, a, b, c, n)
  {
    EmitHashes(rsl, minimal, a, b, c, x, y, z);
    EmitSize(rsl, minimal, x, y, z);
  }

  method OneInstruction3(a: ub4, b: ub4, c: ub4, minimal: bool) returns (r: Option<Code>)
    ensures r.Some? ==> Solves3(r.value, minimal, a, b, c, 1)
    ensures r.None? ==> !Distinct3(LowBits(a), LowBits(b), LowBits(c)) && !Distinct3(Shr(a, 30), Shr(b, 30), Shr(c, 30))
  {
    Unfold();
    Count();
    var x, y, z := LowBits(a), LowBits(b), LowBits(c);
    if x != y && x != z && y != z {
      EmitSolves(Mask(Val, 3), minimal, a, b, c, x, y, z, 1);
      return Some(Emit(Mask(Val, 3), minimal, x, y, z));
    }
    x, y, z := Shr(a, UB4BITS - 2), Shr(b, UB4BITS - 2), Shr(c, UB4BITS - 2);
    if x != y && x != z && y != z {
      TopBits(a);
      TopBits(b);
      TopBits(c);
      EmitSolves(ShiftR(Val, UB4BITS - 2), minimal, a, b, c, x, y, z, 1);
      return Some(Emit(ShiftR(Val, UB4BITS - 2), minimal, x, y, z));
    }
    return None;
  }

  method TwoInstructions3(a: ub4, b: ub4, c: ub4, s: Span, minimal: bool) returns (r: Option<Code>)
    requires s.Covers([a, b, c])
    ensures r.Some? ==> Solves3(r.value, minimal, a, b, c, 2)
    ensures r.None? ==> forall t: nat :: !Distinct3(TwoBits(a, t), TwoBits(b, t), TwoBits(c, t))
  {
    Unfold();
    Count();
    var i := 0;
    while i < s.highbit
      invariant 0 <= i <= s.highbit
      invariant forall t: nat :: t < i ==> !Distinct3(TwoBits(a, t), TwoBits(b, t), TwoBits(c, t))
    {
      var x, y, z := TwoBits(a, i), TwoBits(b, i), TwoBits(c, i);
      if x != y && x != z && y != z {
        var e := Mask(ShiftR(Val, i), 3);
        EmitSolves(e, minimal, a, b, c, x, y, z, 2);
        return Some(Emit(e, minimal, x, y, z));
      }
      i := i + 1;
    }
    forall t: nat ensures !Distinct3(TwoBits(a, t), TwoBits(b, t), TwoBits(c, t)) {
      if t >= s.highbit {
        FieldAboveFails(a, b, c, s, t);
      }
    }
    return None;
  }

  method ThreeInstructions3(a: ub4, b: ub4, c: ub4, s: Span, minimal: bool) returns (r: Option<Code>)
    requires s.Covers([a, b, c]) && !Distinct3(LowBits(a), LowBits(b), LowBits(c))
    ensures r.Some? ==> Solves3(r.value, minimal, a, b, c, 3)
    ensures r.None? ==> forall t: nat :: !Distinct3(SumBits(a, t), SumBits(b, t), SumBits(c, t))
  {
    Unfold();
    Count();
    var i := 0;
    while i <= s.highbit
      invariant 0 <= i <= s.highbit + 1
      invariant forall t: nat :: t < i ==> !Distinct3(SumBits(a, t), SumBits(b, t), SumBits(c, t))
    {
      var x, y, z := SumBits(a, i), SumBits(b, i), SumBits(c, i);
      if x != y && x != z && y != z {
        var e := Mask(PlusE(Val, ShiftR(Val, i)), 3);
        EmitSolves(e, minimal, a, b, c, x, y, z, 3);
        return Some(Emit(e, minimal, x, y, z));
      }
      i := i + 1;
    }
    forall t: nat ensures !Distinct3(SumBits(a, t), SumBits(b, t), SumBits(c, t)) {
      if t > s.highbit {
        SumAboveFails(a, b, c, s, t);
      }
    }
    return None;
  }

  /** Four instructions, which cannot fail. */
  method FourInstructions3(a: ub4, b: ub4, c: ub4, s: Span, minimal: bool) returns (r: Option<Code>)
    requires Distinct3(a, b, c) && s.Covers([a, b, c])
    requires forall t: nat :: t < s.highbit ==> !Distinct3(TwoBits(a, t), TwoBits(b, t), TwoBits(c, t))
    ensures r.Some? && Solves3(r.value, minimal, a, b, c, 4)
  {
    Unfold();
    Count();
    ghost var gi, gj := FourInstructionsSuffice(a, b, c, s);
    var i := s.lowbit;
    while i <= s.highbit
      invariant s.lowbit <= i <= gi
    {
      var j := i;
      while j <= s.highbit
        invariant i <= j && (i == gi ==> j <= gj)
      {
        var x, y, z := XorBits(a, i, j), XorBits(b, i, j), XorBits(c, i, j);
        if x != y && x != z && y != z {
          var e := Mask(XorE(ShiftR(Val, i), ShiftR(Val, j)), 3);
          EmitSolves(e, minimal, a, b, c, x, y, z, 4);
          return Some(Emit(e, minimal, x, y, z));
        }
        j := j + 1;
      }
      i := i + 1;
    }
    return None;
  }

  method Hexthree(a: ub4, b: ub4, c: ub4, s: Span, minimal: bool) returns (r: Result)
    requires s.Covers([a, b, c])
    ensures !Distinct3(a, b, c) ==> r == DuplicateKeys
    ensures Distinct3(a, b, c) ==> r.Ok? && Solves3(r.code, minimal, a, b, c, Budget3(a, b, c))
  {
    if a == b || a == c || b == c {
      return DuplicateKeys;
    }
    var found := OneInstruction3(a, b, c, minimal);
    if found.Some? {
      return Ok(found.value);
    }
    found := TwoInstructions3(a, b, c, s, minimal);
    if found.Some? {
      return Ok(found.value);
    }
    found := ThreeInstructions3(a, b, c, s, minimal);
    if found.Some? {
      return Ok(found.value);
    }
    found := FourInstructions3(a, b, c, s, minimal);
    if found.Some? {
      return Ok(found.value);
    }
    return Fatal;
  }

  lemma TopBits(k: ub4)
    ensures Shr(k, 30) < 4
  {
    Pow2Word();
    ShrBound(k, 2, 30);
    assert Pow2(2) == 4;
  }
}
