/** Constant expressions of the assembler and what becomes of their values. */
module Expressions {
  import opened Bits
  import opened Machine
  import opened Util

  datatype Result<+T> = Ok(value: T) | Err(error: Error) {
    predicate IsFailure() { Err? }
    function PropagateFailure<U>(): Result<U>
      requires Err?
    {
      Err(error)
    }
    function Extract(): T
      requires Ok?
    {
      value
    }
  }

  /** Why the assembler stops. */
  datatype Error =
    | UnknownName(name: string) | DivideByZero | Unaligned
    | DuplicateLabel(name: string) | SizeClash | BadOperand

  datatype BinOp = OrOp | XorOp | AndOp | ShlOp | ShrOp | SarOp | AddOp | SubOp | MulOp | DivOp | RemOp

  /** An expression after parsing; literals of every kind are integers. */
  datatype Expr =
    | Int(v: u64)
    | Ident(name: string)
    | Here                     // `$`, the address of the current item
    | Neg(e: Expr)
    | Not(e: Expr)
    | Bin(op: BinOp, l: Expr, r: Expr)

  type Names = map<string, u64>

  /** An arithmetic shift right of all 64 bits; past the width only the sign is left. */
  function CheckedSar(x: u64, k: nat): u64 {
    if k >= 64 then (if x >= W64 / 2 then ALL_BITS else 0)
    else Wrap(Signed(x, W64) / Pow2(k))
  }

  function Apply(op: BinOp, x: u64, y: u64): Result<u64> {
    Pow2Values();
    match op
    case OrOp => Ok(Or(x, y))
    case XorOp => Ok(Bitwise(XOR, x, y, 64))
    case AndOp => Ok(And(x, y))
    case ShlOp => Ok(CheckedShl(x, y % 0x1_0000_0000))
    case ShrOp => Ok(CheckedShr(x, y % 0x1_0000_0000))
    case SarOp => Ok(CheckedSar(x, y % 0x1_0000_0000))
    case AddOp => Ok(Wrap(x + y))
    case SubOp => Ok(Wrap(x - y))
    case MulOp => Ok(Wrap(x * y))
    case DivOp => if y == 0 then Err(DivideByZero) else ShrinkDiv(x, y); Ok(x / y)
    case RemOp => if y == 0 then Err(DivideByZero) else SmallRemainder(x, y); Ok(x % y)
  }

  lemma SmallRemainder(x: u64, y: u64)
    requires y > 0
    ensures 0 <= x % y < W64
  {
  }

  function Eval(e: Expr, names: Names, here: u64): Result<u64> {
    match e
    case Int(v) => Ok(v)
    case Ident(name) => if name in names then Ok(names[name]) else Err(UnknownName(name))
    case Here => Ok(here)
    case Neg(e') => var x :- Eval(e', names, here); Ok(Wrap(-(x as int)))
    case Not(e') => var x :- Eval(e', names, here); Ok(Bits.Not(x))
    case Bin(op, l, r) =>
      var x :- Eval(l, names, here);
      var y :- Eval(r, names, here);
      Apply(op, x, y)
  }

  /** Union and intersection share out the bits, and exclusive or is what only one has. */
  lemma BitwiseLaw(x: u64, y: u64)
    ensures Apply(AndOp, x, y).value + Apply(OrOp, x, y).value == x + y
    ensures Apply(XorOp, x, y).value == Apply(OrOp, x, y).value - Apply(AndOp, x, y).value
  {
    assert x < Pow2(64) && y < Pow2(64) by { Pow2Values(); }
    UnionAndIntersection(x, y, 64);
  }

  lemma {:induction false} UnionAndIntersection(x: nat, y: nat, n: nat)
    requires x < Pow2(n) && y < Pow2(n)
    ensures Bitwise(AND, x, y, n) + Bitwise(OR, x, y, n) == x + y
    ensures Bitwise(XOR, x, y, n) == Bitwise(OR, x, y, n) - Bitwise(AND, x, y, n)
    decreases n
  {
    if n > 0 {
      UnionAndIntersection(x / 2, y / 2, n - 1);
      LastBits(x, y);
    }
  }

  lemma LastBits(x: nat, y: nat)
    ensures x == 2 * (x / 2) + B(Bit(x, 0)) && y == 2 * (y / 2) + B(Bit(y, 0))
  {
  }

  /** All names of `names` mean the same in the larger table. */
  predicate Within(names: Names, larger: Names) {
    forall n :: n in names ==> n in larger && larger[n] == names[n]
  }

  /** An expression that has a value keeps it when more names become known. */
  lemma {:induction false} EvalStable(e: Expr, names: Names, larger: Names, here: u64)
    requires Within(names, larger) && Eval(e, names, here).Ok?
    ensures Eval(e, larger, here) == Eval(e, names, here)
  {
    match e
    case Int(_) =>
    case Ident(_) =>
    case Here =>
    case Neg(e') => EvalStable(e', names, larger, here);
    case Not(e') => EvalStable(e', names, larger, here);
    case Bin(_, l, r) => EvalStable(l, names, larger, here); EvalStable(r, names, larger, here);
  }

  /** `truncate_immediate`: the low bits, as an unsigned or as a signed number. */
  function Truncate(immediate: u64, bits: nat, signExtend: bool): (r: u64)
    requires 1 <= bits <= 64
    ensures r == if signExtend then Wrap(Signed(immediate, Pow2(bits))) else immediate % Pow2(bits)
  {
    var msbMask := Shl(1, bits - 1);
    var mask := Shr(ALL_BITS, 64 - bits);
    var masked := And(immediate, mask);
    TruncateParts(immediate, bits);
    if signExtend && And(masked, msbMask) != 0 then Or(Bits.Not(mask), masked) else masked
  }

  lemma TruncateParts(immediate: u64, bits: nat)
    requires 1 <= bits <= 64
    ensures And(immediate, Shr(ALL_BITS, 64 - bits)) == immediate % Pow2(bits)
    ensures var (mask, masked) := (Shr(ALL_BITS, 64 - bits), And(immediate, Shr(ALL_BITS, 64 - bits)));
            Wrap(Signed(immediate, Pow2(bits))) == if And(masked, Shl(1, bits - 1)) != 0
                then Or(Bits.Not(mask), masked) else masked
  {
    var masked := And(immediate, Shr(ALL_BITS, 64 - bits));
    MaskOf(immediate, bits);
    SignExtended(immediate, masked, bits);
    ShlOne(bits - 1);
  }

  lemma MaskOf(immediate: u64, bits: nat)
    requires 1 <= bits <= 64
    ensures Shr(ALL_BITS, 64 - bits) == Pow2(bits) - 1
    ensures And(immediate, Shr(ALL_BITS, 64 - bits)) == immediate % Pow2(bits)
  {
    AllBitsShifted(64 - bits);
    AndLowMask(immediate, bits);
  }

  lemma SignExtended(immediate: u64, masked: u64, bits: nat)
    requires 1 <= bits <= 64 && masked == immediate % Pow2(bits)
    ensures Pow2(bits) <= W64 && Pow2(bits - 1) < W64
    ensures Wrap(Signed(immediate, Pow2(bits))) ==
            if And(masked, Pow2(bits - 1)) != 0 then Or(Bits.Not(Pow2(bits) - 1), masked) else masked
  {
    TopMultiple(bits);
    SignBitTest(immediate, masked, bits);
    WrapSame(immediate, masked, Pow2(bits));
    OnesAbove(masked, bits);
  }

  lemma SignBitTest(x: u64, masked: u64, bits: nat)
    requires 1 <= bits <= 64 && masked == x % Pow2(bits)
    ensures Pow2(bits - 1) < W64 && (And(masked, Pow2(bits - 1)) != 0) == (masked >= Pow2(bits) / 2)
  {
    SignBit(x, bits);
    AndSingleBit(masked, bits - 1);
  }

  lemma OnesAbove(masked: u64, bits: nat)
    requires 1 <= bits <= 64 && masked < Pow2(bits) <= W64
    ensures Or(Bits.Not(Pow2(bits) - 1), masked) == Wrap(masked - Pow2(bits))
  {
    TopMultiple(bits);
    OrAdds(W64 - Pow2(bits), bits, masked);
    WrapNegative(masked - Pow2(bits));
  }

  lemma TopMultiple(bits: nat)
    requires 1 <= bits <= 64
    ensures Pow2(bits) <= W64 && (W64 - Pow2(bits)) % Pow2(bits) == 0
  {
    if bits < 64 {
      AllBitsShifted(bits);
    } else {
      Pow2Values();
      DivideSelf(Pow2(bits));
    }
  }

  /** A target as a count of instructions from the next one. */
  function InstructionOffset(target: u64, next: u64): Result<u64> {
    if And(target, 3) != 0 then Err(Unaligned) else Ok(Wrap(target / 4 - next / 4))
  }

  /** A target as a count of bytes from the next instruction. */
  function ByteOffset(target: u64, next: u64): u64 {
    Wrap(target - next)
  }
}
