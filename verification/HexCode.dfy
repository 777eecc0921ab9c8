/** The C text that lib/perfect/perfhex.c emits, as data with an evaluator. */
module HexCode {
  import opened Words

  datatype Op = AndOp | XorOp | PlusOp | MinusOp

  /** The emitted C expressions; shift counts are printed constants. */
  datatype Expr =
    | Val | NewVal | B
    | Num(n: nat)
    | ShiftR(e: Expr, places: nat)
    | ShiftL(e: Expr, places: nat)
    | Bin(op: Op, l: Expr, r: Expr)

  /** One to three emitted lines: [newval = ..;] [b = ..;] rsl = ..; */
  datatype Code =
    | One(rsl: Expr)
    | WithB(b: Expr, rsl: Expr)
    | WithNewVal(newval: Expr, b: Expr, rsl: Expr)

  datatype Env = Env(val: nat, newval: nat, b: nat)

  function Apply(op: Op, x: nat, y: nat): nat {
    match op
    case AndOp => And(x, y)
    case XorOp => Xor(x, y)
    case PlusOp => Plus(x, y)
    case MinusOp => Minus(x, y)
  }

  function Eval(e: Expr, env: Env): nat {
    match e
    case Val => env.val
    case NewVal => env.newval
    case B => env.b
    case Num(n) => n
    case ShiftR(x, n) => Shr(Eval(x, env), n)
    case ShiftL(x, n) => Shl(Eval(x, env), n)
    case Bin(op, l, r) => Apply(op, Eval(l, env), Eval(r, env))
  }

  /** The value the emitted routine returns for val == k. */
  function Run(c: Code, k: nat): nat {
    match c
    case One(rsl) => Eval(rsl, Env(k, 0, 0))
    case WithB(b, rsl) => Eval(rsl, Env(k, 0, Eval(b, Env(k, 0, 0))))
    case WithNewVal(newval, b, rsl) =>
      var nv := Eval(newval, Env(k, 0, 0));
      Eval(rsl, Env(k, nv, Eval(b, Env(k, nv, 0))))
  }

  /** Every shift is by less than the word size, so the C text has a defined value. */
  predicate ShiftsDefined(e: Expr) {
    match e
    case Val => true
    case NewVal => true
    case B => true
    case Num(n) => n < WORD
    case ShiftR(x, n) => n < UB4BITS && ShiftsDefined(x)
    case ShiftL(x, n) => n < UB4BITS && ShiftsDefined(x)
    case Bin(_, l, r) => ShiftsDefined(l) && ShiftsDefined(r)
  }

  predicate Defined(c: Code) {
    match c
    case One(rsl) => ShiftsDefined(rsl)
    case WithB(b, rsl) => ShiftsDefined(b) && ShiftsDefined(rsl)
    case WithNewVal(newval, b, rsl) => ShiftsDefined(newval) && ShiftsDefined(b) && ShiftsDefined(rsl)
  }

  /** The operators of an expression. */
  function Size(e: Expr): nat {
    match e
    case Val => 0
    case NewVal => 0
    case B => 0
    case Num(_) => 0
    case ShiftR(x, _) => Size(x) + 1
    case ShiftL(x, _) => Size(x) + 1
    case Bin(_, l, r) => Size(l) + Size(r) + 1
  }

  /** The instructions that the emitted code takes. */
  function Instructions(c: Code): nat {
    match c
    case One(rsl) => Size(rsl)
    case WithB(b, rsl) => Size(b) + Size(rsl)
    case WithNewVal(newval, b, rsl) => Size(newval) + Size(b) + Size(rsl)
  }

  // The recursive equations of Eval and ShiftsDefined as rewrite rules that apply at any depth.
  lemma Unfold()
    ensures forall x, n: nat, env {:trigger Eval(ShiftR(x, n), env)} :: Eval(ShiftR(x, n), env) == Shr(Eval(x, env), n)
    ensures forall x, n: nat, env {:trigger Eval(ShiftL(x, n), env)} :: Eval(ShiftL(x, n), env) == Shl(Eval(x, env), n)
    ensures forall op, l, r, env {:trigger Eval(Bin(op, l, r), env)} ::
              Eval(Bin(op, l, r), env) == Apply(op, Eval(l, env), Eval(r, env))
    ensures forall x, n: nat {:trigger ShiftsDefined(ShiftR(x, n))} ::
              ShiftsDefined(ShiftR(x, n)) <==> n < UB4BITS && ShiftsDefined(x)
    ensures forall x, n: nat {:trigger ShiftsDefined(ShiftL(x, n))} ::
              ShiftsDefined(ShiftL(x, n)) <==> n < UB4BITS && ShiftsDefined(x)
    ensures forall op, l, r {:trigger ShiftsDefined(Bin(op, l, r))} ::
              ShiftsDefined(Bin(op, l, r)) <==> ShiftsDefined(l) && ShiftsDefined(r)
  {
  }

  // The same for Size.
  lemma Count()
    ensures Size(Val) == Size(NewVal) == Size(B) == 0 && forall n: nat {:trigger Num(n)} :: Size(Num(n)) == 0
    ensures forall x, n: nat {:trigger ShiftR(x, n)} :: Size(ShiftR(x, n)) == Size(x) + 1
    ensures forall x, n: nat {:trigger ShiftL(x, n)} :: Size(ShiftL(x, n)) == Size(x) + 1
    ensures forall op, l, r {:trigger Bin(op, l, r)} :: Size(Bin(op, l, r)) == Size(l) + Size(r) + 1
  {
  }

  // Short names for the pieces of emitted text.
  function Mask(e: Expr, n: nat): Expr { Bin(AndOp, e, Num(n)) }
  function XorE(l: Expr, r: Expr): Expr { Bin(XorOp, l, r) }
  function PlusE(l: Expr, r: Expr): Expr { Bin(PlusOp, l, r) }
  function MinusE(l: Expr, r: Expr): Expr { Bin(MinusOp, l, r) }

  predicate Distinct3(x: nat, y: nat, z: nat) {
    x != y && x != z && y != z
  }

  predicate Distinct4(w: nat, x: nat, y: nat, z: nat) {
    w != x && w != y && w != z && Distinct3(x, y, z)
  }

  /** Four values that are 0, 1, 2, 3 in some order. */
  predicate Permutation(w: nat, x: nat, y: nat, z: nat) {
    Distinct4(w, x, y, z) && w < 4 && x < 4 && y < 4 && z < 4
  }

  /** The code maps three keys one-to-one into 0..3, into 0..2 if minimal. */
  predicate Hashes3(c: Code, minimal: bool, k: ub4, l: ub4, m: ub4) {
    var x, y, z := Run(c, k), Run(c, l), Run(c, m);
    var range := if minimal then 3 else 4;
    Distinct3(x, y, z) && x < range && y < range && z < range
  }

  /** The code maps four keys one-to-one onto 0..3. */
  predicate Hashes4(c: Code, k: ub4, l: ub4, m: ub4, n: ub4) {
    Permutation(Run(c, k), Run(c, l), Run(c, m), Run(c, n))
  }
}
