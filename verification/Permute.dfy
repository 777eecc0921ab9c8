/** The scramble permutation: mylog2, permute and scrambleinit of lib/perfect/perfect.c. */
module Permute {
  import Pigeonhole
  import opened Words

  /** The ceiling of the base-2 logarithm. */
  method Mylog2(val: ub4) returns (i: nat)
    requires val <= 0x8000_0000
    ensures val <= Pow2(i) && i <= 31
    ensures i > 0 ==> Pow2(i - 1) < val
  {
    i := 0;
    assert Pow2(31) == 0x8000_0000 by {
      Pow2Word();
    }
    while Pow2(i) < val
      invariant i <= 31
      invariant i > 0 ==> Pow2(i - 1) < val
    {
      i := i + 1;
    }
  }

  function MaskOf(nbits: nat): nat { Pow2(nbits) - 1 }

  /** One step x = (x + (x << c)) & mask. */
  function AddShift(x: nat, c: nat, nbits: nat): nat {
    And(Plus(x, Shl(x, c)), MaskOf(nbits))
  }

  /** One step x = x ^ (x >> c). */
  function XorShift(x: nat, c: nat): nat {
    Xor(x, Shr(x, c))
  }

  /** The low n bits of x. */
  function Low(x: nat, n: nat): (r: nat)
    ensures r < Pow2(n)
  {
    if n == 0 then 0 else x % 2 + 2 * Low(x / 2, n - 1)
  }

  lemma {:induction false} AndMask(x: nat, n: nat)
    ensures And(x, MaskOf(n)) == Low(x, n)
  {
    if n == 0 {
      AndZero(x);
    } else {
      AndMask(x / 2, n - 1);
      assert MaskOf(n) / 2 == MaskOf(n - 1) && MaskOf(n) % 2 == 1;
    }
  }

  lemma {:induction false} LowOfSmall(x: nat, n: nat)
    requires x < Pow2(n)
    ensures Low(x, n) == x
  {
    if n > 0 {
      LowOfSmall(x / 2, n - 1);
    }
  }

  // multiples of a larger power of two do not show in the low bits
  lemma {:induction false} LowIgnoresHigh(q: nat, r: nat, m: nat, n: nat)
    requires n <= m
    ensures Low(q * Pow2(m) + r, n) == Low(r, n)
  {
    if n > 0 {
      var p := Pow2(m - 1);
      assert q * Pow2(m) == 2 * (q * p);
      LowIgnoresHigh(q, r / 2, m - 1, n - 1);
      assert (q * Pow2(m) + r) / 2 == q * p + r / 2;
    }
  }

  lemma LowOfWord(x: nat, n: nat)
    requires n <= 32
    ensures Low(x % WORD, n) == Low(x, n)
  {
    Pow2Word();
    assert x == (x / WORD) * WORD + x % WORD;
    LowIgnoresHigh(x / WORD, x % WORD, 32, n);
  }

  /** Multiplication by an odd number is one-to-one on the low n bits. */
  lemma {:induction false} OddMultiplierOneToOne(x: nat, y: nat, u: nat, t: nat, n: nat)
    requires u % 2 == 1
    requires Low(x * u + t, n) == Low(y * u + t, n)
    ensures Low(x, n) == Low(y, n)
  {
    if n > 0 {
      Halve(x, u, t);
      Halve(y, u, t);
      var fx, fy := x * u + t, y * u + t;
      assert fx % 2 == fy % 2 && Low(fx / 2, n - 1) == Low(fy / 2, n - 1);
      SameParity(x, y, t);
      OddMultiplierOneToOne(x / 2, y / 2, u, (x % 2 * u + t) / 2, n - 1);
    }
  }

  lemma SameParity(x: nat, y: nat, t: nat)
    requires (x + t) % 2 == (y + t) % 2
    ensures x % 2 == y % 2
  {
  }

  lemma Halve(x: nat, u: nat, t: nat)
    requires u % 2 == 1
    ensures (x * u + t) / 2 == x / 2 * u + (x % 2 * u + t) / 2
    ensures (x * u + t) % 2 == (x + t) % 2
  {
    assert x == 2 * (x / 2) + x % 2;
    assert x * u == 2 * (x / 2 * u) + x % 2 * u;
  }

  lemma LowOfWrappedSum(x: nat, y: nat, n: nat)
    requires n <= 32
    ensures Low((x + y % WORD) % WORD, n) == Low(x + y, n)
  {
    LowOfWord(x + y % WORD, n);
    Pow2Word();
    assert x + y == (y / WORD) * WORD + (x + y % WORD);
    LowIgnoresHigh(y / WORD, x + y % WORD, 32, n);
  }

  lemma AddShiftIs(x: nat, c: nat, nbits: nat)
    requires nbits <= 32
    ensures AddShift(x, c, nbits) == Low(x + x * Pow2(c), nbits)
  {
    AndMask(Plus(x, Shl(x, c)), nbits);
    LowOfWrappedSum(x, x * Pow2(c), nbits);
  }

  lemma AddShiftOneToOne(x: nat, y: nat, c: nat, nbits: nat)
    requires 1 <= c && nbits <= 32 && x < Pow2(nbits) && y < Pow2(nbits)
    requires AddShift(x, c, nbits) == AddShift(y, c, nbits)
    ensures x == y
  {
    AddShiftIs(x, c, nbits);
    AddShiftIs(y, c, nbits);
    TimesOddOneToOne(x, y, Pow2(c), nbits) by { assert Pow2(c) == 2 * Pow2(c - 1); }
    LowOfSmall(x, nbits);
    LowOfSmall(y, nbits);
  }

  lemma TimesOddOneToOne(x: nat, y: nat, p: nat, n: nat)
    requires p % 2 == 0 && Low(x + x * p, n) == Low(y + y * p, n)
    ensures Low(x, n) == Low(y, n)
  {
    assert x * (1 + p) == x + x * p && y * (1 + p) == y + y * p;
    OddMultiplierOneToOne(x, y, 1 + p, 0, n);
  }

  // from the top bit down, each bit of x is determined by the result and the bits above it
  lemma {:induction false} XorShiftDeterminesBits(x: nat, y: nat, c: nat, nbits: nat, i: nat)
    requires 1 <= c && x < Pow2(nbits) && y < Pow2(nbits)
    requires XorShift(x, c) == XorShift(y, c)
    ensures Bit(x, i) == Bit(y, i)
    decreases nbits - i
  {
    if i >= nbits {
      NoHighBits(x, nbits, i);
      NoHighBits(y, nbits, i);
    } else {
      XorShiftDeterminesBits(x, y, c, nbits, i + c);
      BitOfXor(x, Shr(x, c), i);
      BitOfXor(y, Shr(y, c), i);
      ShrShr(x, c, i);
      ShrShr(y, c, i);
    }
  }

  lemma XorShiftOneToOne(x: nat, y: nat, c: nat, nbits: nat)
    requires 1 <= c && x < Pow2(nbits) && y < Pow2(nbits)
    requires XorShift(x, c) == XorShift(y, c)
    ensures x == y
  {
    forall i: nat | i < nbits ensures Bit(x, i) == Bit(y, i) { XorShiftDeterminesBits(x, y, c, nbits, i); }
    SameBits(x, y, nbits);
  }

  lemma {:induction false} ShrSmaller(x: nat, n: nat)
    ensures Shr(x, n) <= x
  {
    if n > 0 {
      ShrSmaller(x / 2, n - 1);
    }
  }

  datatype Step = AddStep(c: nat) | XorStep(c: nat)

  function StepValue(step: Step, x: nat, nbits: nat): nat {
    match step
    case AddStep(c) => AddShift(x, c, nbits)
    case XorStep(c) => XorShift(x, c)
  }

  /** A run of steps, the last one last. */
  function Run(steps: seq<Step>, x: nat, nbits: nat): nat
    decreases |steps|
  {
    if steps == [] then x else StepValue(steps[|steps| - 1], Run(steps[..|steps| - 1], x, nbits), nbits)
  }

  /** The steps of n rounds of the loop of permute. */
  function Steps(nbits: nat, n: nat): seq<Step> {
    if n == 0 then []
    else
      Steps(nbits, n - 1)
      + [AddStep(1 + nbits / 2), XorStep(1 + nbits / 3), AddStep(1 + nbits / 4), XorStep(1 + nbits / 5)]
  }

  const ROUNDS: nat := 20

  function Permuted(x: nat, nbits: nat): nat {
    Run(Steps(nbits, ROUNDS), x, nbits)
  }

  predicate RealShifts(steps: seq<Step>) {
    forall k :: 0 <= k < |steps| ==> steps[k].c >= 1
  }

  lemma {:induction false} StepsAreReal(nbits: nat, n: nat)
    ensures RealShifts(Steps(nbits, n)) && |Steps(nbits, n)| == 4 * n
    ensures n > 0 ==> Steps(nbits, n)[|Steps(nbits, n)| - 2] == AddStep(1 + nbits / 4)
  {
    if n > 0 {
      StepsAreReal(nbits, n - 1);
    }
  }

  lemma StepInRange(step: Step, x: nat, nbits: nat)
    requires nbits <= 32 && (x < Pow2(nbits) || step.AddStep?)
    ensures StepValue(step, x, nbits) < Pow2(nbits)
  {
    match step
    case AddStep(c) =>
      AddShiftIs(x, c, nbits);
    case XorStep(c) =>
      ShrSmaller(x, c);
      XorBound(x, Shr(x, c), nbits);
  }

  lemma StepOneToOne(step: Step, x: nat, y: nat, nbits: nat)
    requires nbits <= 32 && step.c >= 1 && x < Pow2(nbits) && y < Pow2(nbits)
    requires StepValue(step, x, nbits) == StepValue(step, y, nbits)
    ensures x == y
  {
    match step
    case AddStep(c) => AddShiftOneToOne(x, y, c, nbits);
    case XorStep(c) => XorShiftOneToOne(x, y, c, nbits);
  }

  lemma StepFixesZero(step: Step, nbits: nat)
    requires nbits <= 32
    ensures StepValue(step, 0, nbits) == 0
  {
    match step
    case AddStep(c) =>
      AddShiftIs(0, c, nbits);
      LowOfSmall(0, nbits);
    case XorStep(c) =>
      ShrZero(c);
  }

  lemma {:induction false} RunInRange(steps: seq<Step>, x: nat, nbits: nat)
    requires nbits <= 32 && x < Pow2(nbits)
    ensures Run(steps, x, nbits) < Pow2(nbits)
    decreases |steps|
  {
    if steps != [] {
      var n := |steps| - 1;
      RunInRange(steps[..n], x, nbits);
      StepInRange(steps[n], Run(steps[..n], x, nbits), nbits);
    }
  }

  lemma {:induction false} RunOneToOne(steps: seq<Step>, x: nat, y: nat, nbits: nat)
    requires nbits <= 32 && RealShifts(steps) && x < Pow2(nbits) && y < Pow2(nbits)
    requires Run(steps, x, nbits) == Run(steps, y, nbits)
    ensures x == y
    decreases |steps|
  {
    if steps != [] {
      var n := |steps| - 1;
      RunInRange(steps[..n], x, nbits);
      RunInRange(steps[..n], y, nbits);
      StepOneToOne(steps[n], Run(steps[..n], x, nbits), Run(steps[..n], y, nbits), nbits);
      RunOneToOne(steps[..n], x, y, nbits);
    }
  }

  lemma {:induction false} RunFixesZero(steps: seq<Step>, nbits: nat)
    requires nbits <= 32
    ensures Run(steps, 0, nbits) == 0
    decreases |steps|
  {
    if steps != [] {
      RunFixesZero(steps[..|steps| - 1], nbits);
      StepFixesZero(steps[|steps| - 1], nbits);
    }
  }

  predicate IsImage(v: nat, steps: seq<Step>, nbits: nat) {
    exists x: nat :: x < Pow2(nbits) && Run(steps, x, nbits) == v
  }

  lemma RunOnto(steps: seq<Step>, v: nat, nbits: nat)
    requires nbits <= 32 && RealShifts(steps) && v < Pow2(nbits)
    ensures IsImage(v, steps, nbits)
  {
    var image := seq(Pow2(nbits), i requires 0 <= i => Run(steps, i, nbits));
    forall i | 0 <= i < |image| ensures image[i] < |image| { RunInRange(steps, i, nbits); }
    forall i, j | 0 <= i < j < |image|
      ensures image[i] != image[j]
    {
      if image[i] == image[j] {
        RunOneToOne(steps, i, j, nbits);
      }
    }
    Pigeonhole.Onto(image, v);
    var i :| 0 <= i < |image| && image[i] == v;
    assert Run(steps, i, nbits) == v;
  }

  /** Any run of real shifts is a permutation of 0..2^nbits-1 that leaves 0 where it is. */
  lemma RunIsPermutation(steps: seq<Step>, nbits: nat)
    requires nbits <= 32 && RealShifts(steps)
    ensures Run(steps, 0, nbits) == 0
    ensures forall x: nat :: x < Pow2(nbits) ==> Run(steps, x, nbits) < Pow2(nbits)
    ensures forall x: nat, y: nat :: x < y < Pow2(nbits) ==> Run(steps, x, nbits) != Run(steps, y, nbits)
    ensures forall v: nat :: v < Pow2(nbits) ==> IsImage(v, steps, nbits)
  {
    RunFixesZero(steps, nbits);
    forall x: nat | x < Pow2(nbits) ensures Run(steps, x, nbits) < Pow2(nbits) { RunInRange(steps, x, nbits); }
    forall x: nat, y: nat | x < y < Pow2(nbits)
      ensures Run(steps, x, nbits) != Run(steps, y, nbits)
    {
      if Run(steps, x, nbits) == Run(steps, y, nbits) {
        RunOneToOne(steps, x, y, nbits);
      }
    }
    forall v: nat | v < Pow2(nbits) ensures IsImage(v, steps, nbits) { RunOnto(steps, v, nbits); }
  }

  /** permute is a permutation of 0..2^nbits-1 that leaves 0 where it is. */
  lemma PermutedIsPermutation(nbits: nat)
    requires nbits <= 31
    ensures Permuted(0, nbits) == 0
    ensures forall x: nat :: x < Pow2(nbits) ==> Permuted(x, nbits) < Pow2(nbits)
    ensures forall x: nat, y: nat :: x < y < Pow2(nbits) ==> Permuted(x, nbits) != Permuted(y, nbits)
    ensures forall v: nat :: v < Pow2(nbits) ==> IsImage(v, Steps(nbits, ROUNDS), nbits)
  {
    StepsAreReal(nbits, ROUNDS);
    RunIsPermutation(Steps(nbits, ROUNDS), nbits);
  }

  lemma PermutedInRange(x: nat, nbits: nat)
    requires nbits <= 31
    ensures Permuted(x, nbits) < Pow2(nbits)
  {
    var steps := Steps(nbits, ROUNDS);
    StepsAreReal(nbits, ROUNDS);
    LastStepsInRange(steps, x, nbits);
  }

  // whatever goes in, an add step near the end cuts it down to nbits bits
  lemma LastStepsInRange(steps: seq<Step>, x: nat, nbits: nat)
    requires nbits <= 32 && |steps| >= 2 && steps[|steps| - 2].AddStep?
    ensures Run(steps, x, nbits) < Pow2(nbits)
  {
    var init := steps[..|steps| - 1];
    var n := |init| - 1;
    assert init[n] == steps[|steps| - 2];
    StepInRange(init[n], Run(init[..n], x, nbits), nbits);
    StepInRange(steps[|steps| - 1], Run(init, x, nbits), nbits);
  }

  lemma RunSnoc(steps: seq<Step>, step: Step, x: nat, nbits: nat)
    ensures Run(steps + [step], x, nbits) == StepValue(step, Run(steps, x, nbits), nbits)
  {
    assert (steps + [step])[..|steps|] == steps;
  }

  // one iteration of the loop of permute
  lemma RunRound(nbits: nat, n: nat, x: nat)
    ensures var r := Run(Steps(nbits, n), x, nbits);
      Run(Steps(nbits, n + 1), x, nbits) ==
      XorShift(AddShift(XorShift(AddShift(r, 1 + nbits / 2, nbits), 1 + nbits / 3), 1 + nbits / 4, nbits),
          1 + nbits / 5)
  {
    var s0 := Steps(nbits, n);
    var s1 := s0 + [AddStep(1 + nbits / 2)];
    var s2 := s1 + [XorStep(1 + nbits / 3)];
    var s3 := s2 + [AddStep(1 + nbits / 4)];
    RunSnoc(s0, AddStep(1 + nbits / 2), x, nbits);
    RunSnoc(s1, XorStep(1 + nbits / 3), x, nbits);
    RunSnoc(s2, AddStep(1 + nbits / 4), x, nbits);
    RunSnoc(s3, XorStep(1 + nbits / 5), x, nbits);
    assert Steps(nbits, n + 1) == s3 + [XorStep(1 + nbits / 5)];
  }

  method Permute(x: ub4, nbits: nat) returns (r: nat)
    requires nbits <= 31
    ensures r == Permuted(x, nbits)
  {
    r := x;
    var mask := MaskOf(nbits);
    var const2, const3, const4, const5 := 1 + nbits / 2, 1 + nbits / 3, 1 + nbits / 4, 1 + nbits / 5;
    var i := 0;
    while i < ROUNDS
      invariant 0 <= i <= ROUNDS
      invariant r == Run(Steps(nbits, i), x, nbits)
    {
      RunRound(nbits, i, x);
      r := And(Plus(r, Shl(r, const2)), mask);
      r := Xor(r, Shr(r, const3));
      r := And(Plus(r, Shl(r, const4)), mask);
      r := Xor(r, Shr(r, const5));
      i := i + 1;
    }
  }

  /** Values below 2^nbits, the first 2^nbits of them distinct, starting with 0. */
  ghost predicate Scrambled(scramble: seq<nat>, nbits: nat) {
    && (forall i :: 0 <= i < |scramble| ==> scramble[i] < Pow2(nbits))
    && (forall i, j :: 0 <= i < j < |scramble| && j < Pow2(nbits) ==> scramble[i] != scramble[j])
    && (|scramble| > 0 ==> scramble[0] == 0)
  }

  const SCRAMBLE_LEN: nat := 0x1_0000

  method ScrambleInit(scramble: array<nat>, smax: ub4) returns (ghost nbits: nat)
    requires scramble.Length == SCRAMBLE_LEN && smax <= 0x8000_0000
    modifies scramble
    ensures Scrambled(scramble[..], nbits)
    ensures smax <= Pow2(nbits) && (nbits > 0 ==> Pow2(nbits - 1) < smax)
  {
    var log := Mylog2(smax);
    nbits := log;
    var i := 0;
    while i < SCRAMBLE_LEN
      invariant 0 <= i <= SCRAMBLE_LEN
      invariant forall k :: 0 <= k < i ==> scramble[k] == Permuted(k, log)
    {
      var v := Permute(i, log);
      scramble[i] := v;
      i := i + 1;
    }
    PermutedIsScrambled(scramble[..], log);
  }

  lemma PermutedIsScrambled(scramble: seq<nat>, nbits: nat)
    requires nbits <= 31 && forall k :: 0 <= k < |scramble| ==> scramble[k] == Permuted(k, nbits)
    ensures Scrambled(scramble, nbits)
  {
    PermutedIsPermutation(nbits);
    forall i | 0 <= i < |scramble| ensures scramble[i] < Pow2(nbits) { PermutedInRange(i, nbits); }
  }
}
