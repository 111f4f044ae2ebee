/** What single instructions do, said of the instruction and in terms of bits, bytes and integers:
    the operands, the destination, the flags and the order of the bytes in memory. */
module Operations {
  import opened Bits
  import opened Memory
  import opened Isa
  import opened Machine
  import opened Products
  import opened BitMoves
  import opened Shifts
  import U = Util

  // ---------------------------------------------------- the right operand

  /** The number an immediate stands for: eleven bits, signed or not, in steps of eleven bits;
      factors 6 and 7 shift by 66 and 77 bits, which leaves 2 and 13, and have no sign. */
  predicate ImmediateIs(imm: imm11, factor: imm3, signExtend: bool, v: int) {
    if factor == 6 then v == imm * 4
    else if factor == 7 then v == imm * 0x2000
    else v == (if signExtend && imm >= 0x400 then imm - 0x800 else imm) * Pow2(11 * factor)
  }

  /** v is the right operand of an arithmetic or logical instruction. */
  predicate OperandIs(s: State, rhs: AluRhs, v: int) {
    match rhs
    case AluReg(r) => v == s.regs[r]
    case AluImm(imm, factor, signExtend) => ImmediateIs(imm, factor, signExtend, v)
  }

  lemma SignedImmediate(imm: imm11)
    ensures Signed(imm, 0x800) == if imm >= 0x400 then imm - 0x800 else imm
  {
  }

  lemma OperandValue(s: State, rhs: AluRhs, v: int)
    requires OperandIs(s, rhs, v)
    ensures RhsValue(s.regs, rhs) == Wrap(v)
  {
    match rhs
    case AluReg(r) => Small64(s.regs[r]);
    case AluImm(imm, factor, _) => SignedImmediate(imm);
  }

  lemma LowOfOperand(v: int, size: Size)
    ensures Wrap(v) % Modulus(size) == v % Modulus(size)
  {
    U.WrapKeepsLow(v, size);
  }

  lemma ReducedSum(x: int, v: int, c: int, m: int)
    requires m > 0
    ensures (x % m + v % m + c) % m == (x + v + c) % m
  {
    ReducedTerm(x, v % m + c, m);
    ReducedTerm(v, x + c, m);
  }

  lemma SameLow(was: u64, size: Size, v: int)
    requires 0 <= v < Modulus(size)
    ensures SetLow(was, size, v) % Modulus(size) == v && SetLow(was, size, v) / Modulus(size) == was / Modulus(size)
    ensures Bit(SetLow(was, size, v), BitSize(size) - 1) == (v >= Modulus(size) / 2)
  {
    SetLowParts(was, size, v);
    U.SmallResidue(v, size);
    SignOf(size, SetLow(was, size, v));
  }

  /** x is a signed number of the given width. */
  predicate InRange(x: int, size: Size) {
    -(Modulus(size) / 2) <= x < Modulus(size) / 2
  }

  lemma AddedIs(size: Size, x: u64, y: u64, v: int, c: nat, out: AluOut)
    requires y == Wrap(v) && out == AddOut(size, x, y, c)
    ensures out.value == (x + v + c) % Modulus(size)
            && out.carry == (x % Modulus(size) + v % Modulus(size) + c >= Modulus(size))
    ensures out.zero == (out.value == 0) && out.sign == (out.value >= Modulus(size) / 2)
    ensures out.overflow == !InRange(Signed(x, Modulus(size)) + Signed(v, Modulus(size)) + c, size)
  {
    LowOfOperand(v, size);
    ReducedSum(x, v, c, Modulus(size));
  }

  /** A result and its flags, stored. */
  lemma Computed(s: State, size: Size, d: Reg, out: AluOut, f: bool) returns (t: State)
    requires out.value < Modulus(size)
    ensures t == s.(regs := SetOpt(s.regs, Some(d), size, out.value),
                    flags := if f then SetAlu(s.flags, out) else s.flags)
    ensures OnlyResult(s, t, d, size) && t.regs[d] % Modulus(size) == out.value
    ensures Bit(t.regs[d], BitSize(size) - 1) == (out.value >= Modulus(size) / 2)
  {
    t := s.(regs := SetOpt(s.regs, Some(d), size, out.value), flags := if f then SetAlu(s.flags, out) else s.flags);
    SameLow(s.regs[d], size, out.value);
  }

  lemma AddParts(s: State, size: Size, d: Reg, lhs: Reg, rhs: AluRhs, carry: bool, f: bool, v: int)
          returns (t: State)
    requires OperandIs(s, rhs, v)
    ensures ExecAdd(s, size, Some(d), lhs, rhs, carry, f) == Done(t) && OnlyResult(s, t, d, size)
    ensures var m, c := Modulus(size), B(carry && s.flags.carry);
            && t.regs[d] % m == (s.regs[lhs] + v + c) % m
            && t.flags == if f then s.flags.(carry := s.regs[lhs] % m + v % m + c >= m,
                                             zero := t.regs[d] % m == 0,
                                             overflow := !InRange(Signed(s.regs[lhs], m) + Signed(v, m) + c, size),
                                             sign := Bit(t.regs[d], BitSize(size) - 1)) else s.flags
  {
    var c := B(carry && s.flags.carry);
    OperandValue(s, rhs, v);
    var out := AddOut(size, s.regs[lhs], RhsValue(s.regs, rhs), c);
    AddedIs(size, s.regs[lhs], RhsValue(s.regs, rhs), v, c, out);
    t := Computed(s, size, d, out, f);
  }

  /** `add`: the destination holds the sum of the operands, and of the carry when it is asked for,
      modulo its width; C says that the unsigned sum does not fit, O that the signed one does not, Z
      and S describe the result. */
  lemma AddMeans(s: State, size: Size, d: Reg, lhs: Reg, rhs: AluRhs, carry: bool, f: bool, v: int)
          returns (t: State)
    requires OperandIs(s, rhs, v)
    ensures Exec(s, Add(size, Some(d), lhs, rhs, carry, f)) == Done(t) && OnlyResult(s, t, d, size)
    ensures var m, c := Modulus(size), B(carry && s.flags.carry);
            && t.regs[d] % m == (s.regs[lhs] + v + c) % m
            && t.flags == if f then s.flags.(carry := s.regs[lhs] % m + v % m + c >= m,
                                             zero := t.regs[d] % m == 0,
                                             overflow := !InRange(Signed(s.regs[lhs], m) + Signed(v, m) + c, size),
                                             sign := Bit(t.regs[d], BitSize(size) - 1)) else s.flags
  {
    t := AddParts(s, size, d, lhs, rhs, carry, f, v);
  }

  lemma SubtractedIs(size: Size, x: u64, y: u64, v: int, b: nat, out: AluOut)
    requires y == Wrap(v) && out == SubOut(size, x, y, b)
    ensures 0 <= out.value < Modulus(size) && (out.value + v + b) % Modulus(size) == x % Modulus(size)
  {
    LowOfOperand(v, size);
    Undone(x % Modulus(size) - y % Modulus(size) - b, x, v, b, Modulus(size));
  }

  lemma Undone(d: int, x: int, v: int, b: int, m: int)
    requires m > 0 && d == x % m - v % m - b
    ensures (d % m + v + b) % m == x % m
  {
    ReducedTerm(d, v + b, m);
    ReducedTerm(v, d + b, m);
    ReducedTerm(x, 0, m);
  }

  lemma ReducedTerm(x: int, y: int, m: int)
    requires m > 0
    ensures (x % m + y) % m == (x + y) % m
  {
    U.ModShift(x % m + y, x / m, m);
  }

  lemma Restores(r: int, value: int, v: int, b: int, x: int, m: int)
    requires m > 0 && r % m == value && (value + v + b) % m == x % m
    ensures (r + v + b) % m == x % m
  {
    ReducedTerm(r, v + b, m);
  }

  lemma SubParts(s: State, size: Size, d: Reg, lhs: Reg, rhs: AluRhs, borrow: bool, f: bool, v: int)
          returns (t: State)
    requires OperandIs(s, rhs, v)
    ensures ExecSub(s, size, Some(d), lhs, rhs, borrow, f) == Done(t) && OnlyResult(s, t, d, size)
    ensures (t.regs[d] + v + B(borrow && s.flags.carry)) % Modulus(size) == s.regs[lhs] % Modulus(size)
    ensures !f ==> t.flags == s.flags
  {
    var b := B(borrow && s.flags.carry);
    OperandValue(s, rhs, v);
    var out := SubOut(size, s.regs[lhs], RhsValue(s.regs, rhs), b);
    SubtractedIs(size, s.regs[lhs], RhsValue(s.regs, rhs), v, b, out);
    t := Computed(s, size, d, out, f);
    Restores(t.regs[d], out.value, v, b, s.regs[lhs], Modulus(size));
  }

  /** `sub`: the destination holds what the right operand, and the borrow when it is asked for, must
      be increased by to make the left one, modulo the width. */
  lemma SubMeans(s: State, size: Size, d: Reg, lhs: Reg, rhs: AluRhs, borrow: bool, f: bool, v: int)
          returns (t: State)
    requires OperandIs(s, rhs, v)
    ensures Exec(s, Sub(size, Some(d), lhs, rhs, borrow, f)) == Done(t) && OnlyResult(s, t, d, size)
    ensures (t.regs[d] + v + B(borrow && s.flags.carry)) % Modulus(size) == s.regs[lhs] % Modulus(size)
    ensures !f ==> t.flags == s.flags
  {
    t := SubParts(s, size, d, lhs, rhs, borrow, f, v);
  }

  // ------------------------------------------------------- bit by bit

  predicate Combined(op: LogicOp, x: nat, y: nat, now: nat, size: Size) {
    forall i :: 0 <= i < BitSize(size) ==>
      Bit(now, i) == match op
                     case AND => Bit(x, i) && Bit(y, i)
                     case OR => Bit(x, i) || Bit(y, i)
                     case XOR => Bit(x, i) != Bit(y, i)
  }

  lemma LogicBits(op: LogicOp, was: u64, x: u64, y: u64, size: Size, b: u64, v: nat)
    requires v == Bitwise(op, x % Modulus(size), b, 64) && (b == y || b == y % Modulus(size))
    ensures Combined(op, x, y, SetLow(was, size, v), size)
  {
    forall i | 0 <= i < BitSize(size)
      ensures Bit(SetLow(was, size, v), i) == Combine(op, Bit(x, i), Bit(y, i))
    {
      StoredBit(was, size, v, i);
      BitwiseBit(op, x % Modulus(size), b, 64, i);
      LowBit(x, size, i);
      LowBit(y, size, i);
    }
  }

  lemma LogicParts(s: State, op: LogicOp, size: Size, d: Reg, lhs: Reg, rhs: AluRhs, f: bool, v: int)
          returns (t: State)
    requires OperandIs(s, rhs, v)
    ensures ExecLogic(s, op, size, Some(d), lhs, rhs, f) == Done(t) && OnlyResult(s, t, d, size)
    ensures Combined(op, s.regs[lhs], Wrap(v), t.regs[d], size)
    ensures ResultFlags(s.flags, t.flags, size, t.regs[d], s.flags.carry, f)
  {
    OperandValue(s, rhs, v);
    var b := match rhs
             case AluReg(r) => Low(s.regs, r, size)
             case AluImm(imm, factor, sx) => ImmValue(imm, factor, sx);
    var r := Bitwise(op, Low(s.regs, lhs, size), b, 64);
    LogicBits(op, s.regs[d], s.regs[lhs], Wrap(v), size, b, r);
    t := Finished(s, size, d, r, f, s.flags.carry);
  }

  /** `and`, `or` and `xor` combine the operands bit by bit; Z and S describe the result, O is
      cleared and C stays. */
  lemma LogicMeans(s: State, op: LogicOp, size: Size, d: Reg, lhs: Reg, rhs: AluRhs, f: bool, v: int)
          returns (t: State)
    requires OperandIs(s, rhs, v)
    ensures Exec(s, Logic(op, size, Some(d), lhs, rhs, f)) == Done(t) && OnlyResult(s, t, d, size)
    ensures Combined(op, s.regs[lhs], Wrap(v), t.regs[d], size)
    ensures ResultFlags(s.flags, t.flags, size, t.regs[d], s.flags.carry, f)
  {
    t := LogicParts(s, op, size, d, lhs, rhs, f, v);
  }

  // ------------------------------------------- negation, products, quotients

  /** Z and S describe the low part of x and the other flags stay. */
  predicate ZeroAndSign(was: Flags, now: Flags, size: Size, x: u64, setFlags: bool) {
    now == if setFlags then was.(zero := x % Modulus(size) == 0, sign := Bit(x, BitSize(size) - 1)) else was
  }

  lemma StoredZs(f: Flags, was: u64, size: Size, v: int)
    ensures ZeroAndSign(f, SetZs(f, size, v), size, SetLow(was, size, v), true)
    ensures UpperKept(was, SetLow(was, size, v), size)
  {
    SetLowParts(was, size, v);
    SignOf(size, SetLow(was, size, v));
  }

  lemma Opposite(x: u64, r: u64, m: int)
    requires m > 0 && r % m == (0 - x) % m
    ensures (r + x) % m == 0
  {
    var q := (0 - x) / m - r / m;
    assert 0 - x == (0 - x) / m * m + (0 - x) % m && r == r / m * m + r % m;
    Distribute((0 - x) / m, r / m, m);
    DivisionUnique(r + x, m, -q, 0);
  }

  lemma NegParts(s: State, size: Size, d: Reg, src: Reg, f: bool) returns (t: State)
    ensures ExecNeg(s, size, d, src, f) == Done(t) && OnlyResult(s, t, d, size)
    ensures (t.regs[d] + s.regs[src] as int) % Modulus(size) == 0
    ensures ZeroAndSign(s.flags, t.flags, size, t.regs[d], f)
  {
    var v: int := 0 - (s.regs[src] as int);
    SetLowParts(s.regs[d], size, v);
    StoredZs(s.flags, s.regs[d], size, v);
    t := ExecNeg(s, size, d, src, f).s;
    Opposite(s.regs[src], t.regs[d], Modulus(size));
  }

  /** `neg`: destination and operand add up to zero modulo the width. */
  lemma NegMeans(s: State, size: Size, d: Reg, src: Reg, f: bool) returns (t: State)
    ensures Exec(s, Instr.Neg(size, d, src, f)) == Done(t) && OnlyResult(s, t, d, size)
    ensures (t.regs[d] + s.regs[src] as int) % Modulus(size) == 0
    ensures ZeroAndSign(s.flags, t.flags, size, t.regs[d], f)
  {
    t := NegParts(s, size, d, src, f);
  }

  lemma MulParts(s: State, src: Size, dst: Size, d: Reg, lhs: Reg, rhs: Reg, signed: bool, f: bool)
          returns (t: State)
    ensures ExecMul(s, src, dst, d, lhs, rhs, signed, f) == Done(t) && OnlyResult(s, t, d, dst)
    ensures ZeroAndSign(s.flags, t.flags, dst, t.regs[d], f)
  {
    t := ProductModulo(s, src, dst, d, lhs, rhs, signed, f);
    StoredZs(s.flags, s.regs[d], dst, Product(src, s.regs[lhs], s.regs[rhs], signed));
  }

  /** `mul`: the destination holds the product of the operands, read at the source width, modulo the
      destination width; Z and S describe it at that width. */
  lemma MulMeans(s: State, src: Size, dst: Size, d: Reg, lhs: Reg, rhs: Reg, signed: bool, f: bool)
          returns (t: State)
    ensures Exec(s, Mul(src, dst, d, lhs, rhs, signed, f)) == Done(t) && OnlyResult(s, t, d, dst)
    ensures t.regs[d] % Modulus(dst) ==
            (Operand(src, s.regs[lhs], signed) * Operand(src, s.regs[rhs], signed)) % Modulus(dst)
    ensures ZeroAndSign(s.flags, t.flags, dst, t.regs[d], f)
  {
    var u := ProductModulo(s, src, dst, d, lhs, rhs, signed, f);
    t := MulParts(s, src, dst, d, lhs, rhs, signed, f);
  }

  lemma DivParts(s: State, size: Size, quot: Reg, rem: Reg, lhs: Reg, rhs: Reg, signed: bool, f: bool)
          returns (t: State)
    requires !DivisionPanics(size, s.regs[lhs], s.regs[rhs], signed)
    ensures ExecDiv(s, size, quot, rem, lhs, rhs, signed, f) == Done(t)
    ensures t == s.(regs := s.regs[rem := t.regs[rem]][quot := t.regs[quot]], flags := t.flags)
    ensures ZeroAndSign(s.flags, t.flags, size, t.regs[quot], f)
    ensures Operand(size, s.regs[rhs], signed) != 0
    ensures var a, b := Operand(size, s.regs[lhs], signed), Operand(size, s.regs[rhs], signed);
            t.regs[quot] == SetLow(s.regs[quot], size, TruncDiv(a, b))
            && (rem != quot ==> t.regs[rem] == SetLow(s.regs[rem], size, TruncRem(a, b)))
  {
    t := ExecDiv(s, size, quot, rem, lhs, rhs, signed, f).s;
    NonZeroDivisor(size, s.regs[rhs], signed);
    StoredZs(s.flags, s.regs[quot], size,
        TruncDiv(Operand(size, s.regs[lhs], signed), Operand(size, s.regs[rhs], signed)));
  }

  /** `div` into any two registers: the quotient goes to one and the remainder to the other, or only
      the quotient where they are the same, with quotient times divisor plus remainder the dividend
      as in DivisionExact; Z and S describe the quotient and nothing else changes. */
  lemma DivMeans(s: State, size: Size, quot: Reg, rem: Reg, lhs: Reg, rhs: Reg, signed: bool, f: bool)
          returns (t: State, r: int)
    requires !DivisionPanics(size, s.regs[lhs], s.regs[rhs], signed)
    ensures Exec(s, Div(size, quot, rem, lhs, rhs, signed, f)) == Done(t)
    ensures t == s.(regs := s.regs[rem := t.regs[rem]][quot := t.regs[quot]], flags := t.flags)
    ensures UpperKept(s.regs[quot], t.regs[quot], size) && UpperKept(s.regs[rem], t.regs[rem], size)
    ensures var a, b := Operand(size, s.regs[lhs], signed), Operand(size, s.regs[rhs], signed);
            var q := Operand(size, t.regs[quot], signed);
            && (if QuotientOverflows(size, s.regs[lhs], s.regs[rhs], signed) then q == a && r == 0 else q * b + r == a)
            && -Abs(b) < r < Abs(b) && (a >= 0 ==> r >= 0) && (a <= 0 ==> r <= 0)
    ensures rem != quot ==> Operand(size, t.regs[rem], signed) == r
    ensures ZeroAndSign(s.flags, t.flags, size, t.regs[quot], f)
  {
    t := DivParts(s, size, quot, rem, lhs, rhs, signed, f);
    var a, b := Operand(size, s.regs[lhs], signed), Operand(size, s.regs[rhs], signed);
    DivisionStores(size, s.regs[lhs], s.regs[rhs], signed, s.regs[quot], s.regs[rem]);
    r := Operand(size, SetLow(s.regs[rem], size, TruncRem(a, b)), signed);
  }

  /** The emulator panics exactly on a divisor whose low part is zero and on the one signed quotient
      that needs 65 bits. */
  lemma DivAborts(s: State, size: Size, quot: Reg, rem: Reg, lhs: Reg, rhs: Reg, signed: bool, f: bool)
    ensures Exec(s, Div(size, quot, rem, lhs, rhs, signed, f)).Abort? <==>
            s.regs[rhs] % Modulus(size) == 0 ||
            (signed && size.Word? && s.regs[lhs] == 0x8000_0000_0000_0000 && s.regs[rhs] == 0xffff_ffff_ffff_ffff)
  {
    PanicsWhen(size, s.regs[lhs], s.regs[rhs], signed);
    AbortsWhenPanics(s, size, quot, rem, lhs, rhs, signed, f);
  }

  lemma AbortsWhenPanics(s: State, size: Size, quot: Reg, rem: Reg, lhs: Reg, rhs: Reg, signed: bool, f: bool)
    ensures Exec(s, Div(size, quot, rem, lhs, rhs, signed, f)).Abort? <==>
            DivisionPanics(size, s.regs[lhs], s.regs[rhs], signed)
  {
    DivIs(s, size, quot, rem, lhs, rhs, signed, f);
  }

  lemma DivIs(s: State, size: Size, quot: Reg, rem: Reg, lhs: Reg, rhs: Reg, signed: bool, f: bool)
    ensures Exec(s, Div(size, quot, rem, lhs, rhs, signed, f)) == ExecDiv(s, size, quot, rem, lhs, rhs, signed, f)
  {
  }

  lemma PanicsWhen(size: Size, a: u64, b: u64, signed: bool)
    ensures DivisionPanics(size, a, b, signed) <==>
            b % Modulus(size) == 0 ||
            (signed && size.Word? && a == 0x8000_0000_0000_0000 && b == 0xffff_ffff_ffff_ffff)
  {
    Small64(a);
    Small64(b);
  }

  /** `bswap`: byte i of the destination is the operand's byte as far from the other end. */
  lemma BswapMeans(s: State, size: Size, d: Reg, src: Reg, f: bool) returns (t: State)
    ensures Exec(s, Bswap(size, d, src, f)) == Done(t) && OnlyResult(s, t, d, size)
    ensures forall i :: 0 <= i < ByteSize(size) ==>
              ByteAt(t.regs[d], i) == ByteAt(s.regs[src], ByteSize(size) - 1 - i)
    ensures t.flags == if f then s.flags.(sign := Bit(t.regs[d], BitSize(size) - 1)) else s.flags
  {
    t := BswapParts(s, size, d, src, f);
  }

  lemma BswapParts(s: State, size: Size, d: Reg, src: Reg, f: bool) returns (t: State)
    ensures ExecBswap(s, size, d, src, f) == Done(t) && OnlyResult(s, t, d, size)
    ensures forall i :: 0 <= i < ByteSize(size) ==>
              ByteAt(t.regs[d], i) == ByteAt(s.regs[src], ByteSize(size) - 1 - i)
    ensures t.flags == if f then s.flags.(sign := Bit(t.regs[d], BitSize(size) - 1)) else s.flags
  {
    t := ExecBswap(s, size, d, src, f).s;
    U.ReversedLow(s.regs[src], size);
    BswapBytes(s.regs[d], s.regs[src], size, Reversed(s.regs[src], ByteSize(size)));
  }

  lemma BswapBytes(was: u64, x: u64, size: Size, v: nat)
    requires v == Reversed(x, ByteSize(size)) && v < Modulus(size)
    ensures SetLow(was, size, v) / Modulus(size) == was / Modulus(size) && v % Modulus(size) == v
    ensures Bit(SetLow(was, size, v), BitSize(size) - 1) == (v >= Modulus(size) / 2)
    ensures forall i :: 0 <= i < ByteSize(size) ==>
              ByteAt(SetLow(was, size, v), i) == ByteAt(x, ByteSize(size) - 1 - i)
  {
    SameLow(was, size, v);
    U.SmallResidue(v, size);
    forall i | 0 <= i < ByteSize(size) ensures ByteAt(SetLow(was, size, v), i) == ByteAt(x, ByteSize(size) - 1 - i) {
      ReversedByte(x, ByteSize(size), i);
      LowBytes(SetLow(was, size, v), size, i);
    }
  }

  /** The low bytes of a register are those of its low part. */
  lemma LowBytes(x: u64, size: Size, i: nat)
    requires i < ByteSize(size)
    ensures ByteAt(x % Modulus(size), i) == ByteAt(x, i)
  {
    var m := Modulus(size);
    ModulusIsPow2(size);
    ShrinkDiv(x, m);
    assert x == x / m * m + x % m;
    LowByte(x / m, x % m, ByteSize(size), i);
  }
}
