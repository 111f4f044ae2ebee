/** Shifts and rotations as instructions: where every bit of the destination, and the carry,
    come from. */
module Shifts {
  import opened Bits
  import opened Isa
  import opened Machine
  import opened Products
  import opened BitMoves
  import U = Util

  // ------------------------------------------------------ bits of results

  /** The low bits of a register that received a value are the value's. */
  lemma StoredBit(was: u64, size: Size, v: nat, i: nat)
    requires i < BitSize(size)
    ensures Bit(SetLow(was, size, v), i) == Bit(v, i)
  {
    ModulusIsPow2(size);
    SetLowParts(was, size, v);
    ModBit(SetLow(was, size, v), BitSize(size), i);
    ModBit(v, BitSize(size), i);
  }

  /** The operand of an instruction is the low part of its register. */
  lemma LowBit(x: u64, size: Size, i: nat)
    ensures Bit(x % Modulus(size), i) == (i < BitSize(size) && Bit(x, i))
  {
    ModulusIsPow2(size);
    ModBit(x, BitSize(size), i);
  }

  lemma WrappedMultiple(x: nat, k: nat, i: nat)
    requires i < 64
    ensures 0 <= x * Pow2(k)
    ensures Bit(Wrap(x * Pow2(k)), i) == (k <= i && Bit(x, i - k))
  {
    Pow2Values();
    MulBit(x, k, i);
    ModBit(x * Pow2(k), 64, i);
  }

  lemma QuotientMoved(x: u64, p: int, q: int)
    requires p >= 1 && 1 <= q <= W64 && p * q == W64 && 0 <= x / p < q
    ensures Wrap((x - W64) / p) == x / p + (W64 - q)
  {
    Distribute(x / p, q, p);
    assert q * p == p * q && x == x / p * p + x % p;
    DivisionUnique(x - W64, p, x / p - q, x % p);
    U.WrapNegative(x / p - q);
  }

  /** A negative number divided by a power of two, rounding down, in two's complement. */
  lemma NegativeQuotient(x: u64, k: nat)
    requires k < 64 && x < Pow2(64)
    ensures 0 <= x / Pow2(k) < Pow2(64 - k) <= W64
    ensures Wrap((x - W64) / Pow2(k)) == x / Pow2(k) + (W64 - Pow2(64 - k))
  {
    U.TwoPowers(k);
    Pow2Word(64 - k);
    HighPart(x, 64, k);
    ShrinkDiv(x, Pow2(k));
    QuotientMoved(x, Pow2(k), Pow2(64 - k));
  }

  lemma OnesBit(n: nat, p: int, i: nat)
    requires p == Pow2(n) && p <= W64 && i < 64
    ensures Bit(W64 - p, i) == (n <= i)
  {
    NotBit(p - 1, i);
    MaskBit(n, i);
  }

  lemma OnesFrom(n: nat, i: nat)
    requires n <= 64 && i < 64
    ensures Pow2(n) <= W64 && (W64 - Pow2(n)) % Pow2(n) == 0
    ensures Bit(W64 - Pow2(n), i) == (n <= i)
  {
    Pow2Word(n);
    if n < 64 { U.AllBitsShifted(n); } else { Pow2Values(); DivideSelf(Pow2(n)); }
    OnesBit(n, Pow2(n), i);
  }

  /** An arithmetic shift right of a word repeats bit 63. */
  lemma SarBit(x: u64, k: nat, i: nat)
    requires k < 64 && i < 64
    ensures Bit(Wrap(Signed(x, W64) / Pow2(k)), i) == Bit(x, if i + k < 63 then i + k else 63)
  {
    WordSign(x);
    DivBit(x, k, i);
    if x < W64 / 2 {
      ShrinkDiv(x, Pow2(k));
      Small64(x / Pow2(k));
      if i + k > 63 { HighBitsZero(x, 63, i + k); }
    } else {
      NegativeQuotient(x, k);
      OnesFrom(64 - k, i);
      SplitBit(W64 - Pow2(64 - k), 64 - k, x / Pow2(k), i);
    }
  }

  lemma WordSign(x: u64)
    ensures Bit(x, 63) == (x >= W64 / 2)
    ensures x < Pow2(64) && (x < W64 / 2 ==> x < Pow2(63))
    ensures Signed(x, W64) == if x < W64 / 2 then x else x - W64
  {
    Pow2Values();
    U.MsbIsSign(x, Word);
    Small64(x);
  }

  // --------------------------------------------------------------- flags

  /** The flags of a result: Z and S from its low part as it stands in the register, O cleared. */
  predicate ResultFlags(was: Flags, now: Flags, size: Size, x: u64, carry: bool, setFlags: bool) {
    now == if setFlags then was.(zero := x % Modulus(size) == 0, sign := Bit(x, BitSize(size) - 1),
                                 overflow := false, carry := carry) else was
  }

  /** Only register d, above the width not even that, and the flags differ. */
  predicate OnlyResult(s: State, t: State, d: Reg, size: Size) {
    t == s.(regs := s.regs[d := t.regs[d]], flags := t.flags) && UpperKept(s.regs[d], t.regs[d], size)
  }

  lemma SignOf(size: Size, v: nat)
    ensures (v % Modulus(size) >= Modulus(size) / 2) == Bit(v, BitSize(size) - 1)
  {
    var n := BitSize(size);
    ModulusIsPow2(size);
    U.SmallResidue(v % Modulus(size), size);
    U.MsbIsSign(v % Modulus(size), size);
    ModBit(v, n, n - 1);
  }

  // ---------------------------------------------------------- left shifts

  /** The amount of a shift: the low part of a register, or an immediate. */
  ghost predicate ShiftsBy(s: State, size: Size, amount: ShiftRhs, k: nat) {
    match amount
    case ShiftReg(r) => k == s.regs[r] % Modulus(size)
    case ShiftImm(imm) => k == imm
  }

  lemma ShlValueBit(x: u64, size: Size, k: nat, i: nat)
    requires k < BitSize(size) && i < BitSize(size)
    ensures 0 <= (x % Modulus(size)) * Pow2(k)
    ensures Bit(Wrap((x % Modulus(size)) * Pow2(k)), i) == (k <= i && Bit(x, i - k))
  {
    WrappedMultiple(x % Modulus(size), k, i);
    if k <= i { LowBit(x, size, i - k); }
  }

  lemma Finished(s: State, size: Size, d: Reg, v: nat, f: bool, carry: bool) returns (t: State)
    ensures Finish(s, size, Some(d), v, f, carry) == Done(t)
    ensures t.regs[d] == SetLow(s.regs[d], size, v)
    ensures OnlyResult(s, t, d, size) && ResultFlags(s.flags, t.flags, size, t.regs[d], carry, f)
  {
    t := Finish(s, size, Some(d), v, f, carry).s;
    SetLowParts(s.regs[d], size, v);
    SignOf(size, v);
    StoredBit(s.regs[d], size, v, BitSize(size) - 1);
  }

  /** The low part of `now` is the low part of x moved up by k. */
  predicate MovedUp(x: u64, now: u64, size: Size, k: nat) {
    forall i :: 0 <= i < BitSize(size) ==> Bit(now, i) == (k <= i && Bit(x, i - k))
  }

  lemma ShlBits(was: u64, x: u64, size: Size, k: nat, v: u64)
    requires v == if k >= BitSize(size) then 0 else Wrap((x % Modulus(size)) * Pow2(k))
    ensures MovedUp(x, SetLow(was, size, v), size, k)
  {
    forall i | 0 <= i < BitSize(size) ensures Bit(SetLow(was, size, v), i) == (k <= i && Bit(x, i - k)) {
      StoredBit(was, size, v, i);
      if k >= BitSize(size) { HighBitsZero(0, 0, i); } else { ShlValueBit(x, size, k, i); }
    }
  }

  lemma ShlMoves(s: State, size: Size, d: Reg, lhs: Reg, amount: ShiftRhs, f: bool, k: nat) returns (t: State)
    requires ShiftsBy(s, size, amount, k)
    ensures ExecShl(s, size, Some(d), lhs, amount, f) == Done(t) && OnlyResult(s, t, d, size)
    ensures MovedUp(s.regs[lhs], t.regs[d], size, k)
    ensures var carry := if k == 0 then s.flags.carry
                else Bit(s.regs[lhs], if k >= BitSize(size) then 0 else BitSize(size) - k);
            ResultFlags(s.flags, t.flags, size, t.regs[d], carry, f)
  {
    var x, w := s.regs[lhs], BitSize(size);
    LowBit(x, size, 0);
    if 0 < k < w { LowBit(x, size, w - k); }
    var v: u64 := if k >= w then 0 else Wrap((x % Modulus(size)) * Pow2(k));
    ShlBits(s.regs[d], x, size, k, v);
    t := Finished(s, size, d, v, f, if k == 0 then s.flags.carry else Bit(x, if k >= w then 0 else w - k));
  }

  /** `shl`: bit i of the destination is bit i - k of the operand, zeros come in below, and the
      carry is the last bit to leave, or bit 0 of the operand once all have left. */
  lemma ShiftLeftMoves(s: State, size: Size, d: Reg, lhs: Reg, amount: ShiftRhs, f: bool, k: nat) returns (t: State)
    requires ShiftsBy(s, size, amount, k)
    ensures Exec(s, ShiftLeft(size, Some(d), lhs, amount, f)) == Done(t) && OnlyResult(s, t, d, size)
    ensures MovedUp(s.regs[lhs], t.regs[d], size, k)
    ensures var carry := if k == 0 then s.flags.carry
                else Bit(s.regs[lhs], if k >= BitSize(size) then 0 else BitSize(size) - k);
            ResultFlags(s.flags, t.flags, size, t.regs[d], carry, f)
  {
    t := ShlMoves(s, size, d, lhs, amount, f, k);
  }

  // --------------------------------------------------------- right shifts

  /** Where bit i of a right shift comes from.  Only a word shifted by less than its width, and any
      operand shifted by at least its width, takes the sign in; a narrower operand is shifted as
      the non-negative number it was extended to. */
  predicate RightBit(x: u64, size: Size, k: nat, signed: bool, i: nat) {
    var w := BitSize(size);
    if k >= w then signed && Bit(x, w - 1)
    else if i + k < w then Bit(x, i + k)
    else signed && size.Word? && Bit(x, 63)
  }

  /** The low part of `now` is the low part of x moved down by k. */
  predicate MovedDown(x: u64, now: u64, size: Size, k: nat, signed: bool) {
    forall i :: 0 <= i < BitSize(size) ==> Bit(now, i) == RightBit(x, size, k, signed, i)
  }

  lemma ShrWordBit(x: u64, k: nat, signed: bool, i: nat)
    requires k < 64 && i < 64
    ensures Bit(ShrValue(Word, x, k, signed), i) == RightBit(x, Word, k, signed, i)
  {
    if signed {
      SarBit(x, k, i);
    } else {
      ShrinkDiv(x, Pow2(k));
      DivBit(x, k, i);
      WordSign(x);
      if i + k >= 64 { HighBitsZero(x, 64, i + k); }
    }
  }

  lemma NarrowIsPositive(a: u64, size: Size)
    requires !size.Word? && a < Modulus(size)
    ensures Signed(a, W64) == a
  {
    Small64(a);
  }

  lemma ShrNarrow(a: u64, size: Size, k: nat, signed: bool)
    requires !size.Word? && a < Modulus(size) && k < BitSize(size)
    ensures 0 <= a / Pow2(k) <= a && ShrValue(size, a, k, signed) == a / Pow2(k)
  {
    var p := Pow2(k);
    ShrinkDiv(a, p);
    NarrowIsPositive(a, size);
    assert signed ==> ShrValue(size, a, k, signed) == Wrap(a / p);
    Small64(a / p);
  }

  lemma ShrNarrowBit(x: u64, size: Size, k: nat, signed: bool, i: nat)
    requires !size.Word? && k < BitSize(size) && i < BitSize(size)
    ensures Bit(ShrValue(size, x % Modulus(size), k, signed), i) == RightBit(x, size, k, signed, i)
  {
    ShrNarrow(x % Modulus(size), size, k, signed);
    DivBit(x % Modulus(size), k, i);
    LowBit(x, size, i + k);
  }

  lemma ShrAllBit(x: u64, size: Size, k: nat, signed: bool, i: nat)
    requires BitSize(size) <= k && i < BitSize(size)
    ensures Bit(ShrValue(size, x % Modulus(size), k, signed), i) == RightBit(x, size, k, signed, i)
  {
    U.MsbIsSign(x, size);
    AllBitsBit(i);
    HighBitsZero(0, 0, i);
  }

  lemma ShrBits(was: u64, x: u64, size: Size, k: nat, signed: bool, v: u64)
    requires v == ShrValue(size, x % Modulus(size), k, signed)
    ensures MovedDown(x, SetLow(was, size, v), size, k, signed)
  {
    forall i | 0 <= i < BitSize(size) ensures Bit(SetLow(was, size, v), i) == RightBit(x, size, k, signed, i) {
      StoredBit(was, size, v, i);
      if k >= BitSize(size) { ShrAllBit(x, size, k, signed, i); }
      else if size.Word? { Small64(x); ShrWordBit(x, k, signed, i); }
      else { ShrNarrowBit(x, size, k, signed, i); }
    }
  }

  lemma ShrMoves(s: State, size: Size, d: Reg, lhs: Reg, amount: ShiftRhs, signed: bool, f: bool, k: nat)
          returns (t: State)
    requires ShiftsBy(s, size, amount, k)
    ensures ExecShr(s, size, Some(d), lhs, amount, signed, f) == Done(t) && OnlyResult(s, t, d, size)
    ensures MovedDown(s.regs[lhs], t.regs[d], size, k, signed)
    ensures var carry := if k == 0 then s.flags.carry
                else Bit(s.regs[lhs], if k >= BitSize(size) then BitSize(size) - 1 else k - 1);
            ResultFlags(s.flags, t.flags, size, t.regs[d], carry, f)
  {
    var x, w := s.regs[lhs], BitSize(size);
    LowBit(x, size, w - 1);
    if 0 < k < w { LowBit(x, size, k - 1); }
    var v := ShrValue(size, x % Modulus(size), k, signed);
    ShrBits(s.regs[d], x, size, k, signed, v);
    t := Finished(s, size, d, v, f, if k == 0 then s.flags.carry else Bit(x, if k >= w then w - 1 else k - 1));
  }

  /** `shr`: bit i of the destination is bit i + k of the operand, with the sign or zeros coming in
      above, and the carry is the last bit to leave, or the top bit of the operand once all have
      left. */
  lemma ShiftRightMoves(s: State, size: Size, d: Reg, lhs: Reg, amount: ShiftRhs, signed: bool, f: bool, k: nat)
          returns (t: State)
    requires ShiftsBy(s, size, amount, k)
    ensures Exec(s, ShiftRight(size, Some(d), lhs, amount, signed, f)) == Done(t) && OnlyResult(s, t, d, size)
    ensures MovedDown(s.regs[lhs], t.regs[d], size, k, signed)
    ensures var carry := if k == 0 then s.flags.carry
                else Bit(s.regs[lhs], if k >= BitSize(size) then BitSize(size) - 1 else k - 1);
            ResultFlags(s.flags, t.flags, size, t.regs[d], carry, f)
  {
    t := ShrMoves(s, size, d, lhs, amount, signed, f, k);
  }

  // ------------------------------------------------------------ rotations

  /** The low part of `now` is the low part of x turned down by k. */
  predicate Turned(x: u64, now: u64, size: Size, k: nat) {
    forall i :: 0 <= i < BitSize(size) ==> Bit(now, i) == Bit(x, (i + k) % BitSize(size))
  }

  lemma RotBits(was: u64, x: u64, size: Size, k: nat, v: nat)
    requires v == Rotr(size, x % Modulus(size), k)
    ensures Turned(x, SetLow(was, size, v), size, k)
  {
    forall i | 0 <= i < BitSize(size)
      ensures Bit(SetLow(was, size, v), i) == Bit(x, (i + k) % BitSize(size))
    {
      StoredBit(was, size, v, i);
      RotatedBit(size, x % Modulus(size), k, i);
      LowBit(x, size, (i + k) % BitSize(size));
    }
  }

  lemma RotMoves(s: State, size: Size, d: Reg, lhs: Reg, amount: ShiftRhs, f: bool, k: nat) returns (t: State)
    requires ShiftsBy(s, size, amount, k)
    ensures ExecRot(s, size, Some(d), lhs, amount, f) == Done(t) && OnlyResult(s, t, d, size)
    ensures Turned(s.regs[lhs], t.regs[d], size, k)
    ensures t.flags == if f then s.flags.(sign := Bit(t.regs[d], BitSize(size) - 1)) else s.flags
  {
    var x := s.regs[lhs];
    var v := Rotr(size, x % Modulus(size), k);
    RotBits(s.regs[d], x, size, k, v);
    SetLowParts(s.regs[d], size, v);
    SignOf(size, v);
    StoredBit(s.regs[d], size, v, BitSize(size) - 1);
    t := ExecRot(s, size, Some(d), lhs, amount, f).s;
  }

  /** `rot`: bit i of the destination is the bit of the operand k places above it, counted round;
      S is the top bit, and no other flag changes. */
  lemma RotateTurns(s: State, size: Size, d: Reg, lhs: Reg, amount: ShiftRhs, f: bool, k: nat) returns (t: State)
    requires ShiftsBy(s, size, amount, k)
    ensures Exec(s, Rotate(size, Some(d), lhs, amount, f)) == Done(t) && OnlyResult(s, t, d, size)
    ensures Turned(s.regs[lhs], t.regs[d], size, k)
    ensures t.flags == if f then s.flags.(sign := Bit(t.regs[d], BitSize(size) - 1)) else s.flags
  {
    t := RotMoves(s, size, d, lhs, amount, f, k);
  }
}
