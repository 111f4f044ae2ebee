/** What multiplication and division leave in their destinations. */
module Products {
  import opened Bits
  import opened Isa
  import opened Machine
  import U = Util

  /** A register with its low part replaced keeps what is above it. */
  predicate UpperKept(was: u64, now: u64, size: Size) {
    now / Modulus(size) == was / Modulus(size)
  }

  lemma OperandRange(size: Size, x: u64)
    ensures 0 <= Operand(size, x, false) < Modulus(size)
    ensures -(Modulus(size) / 2) <= Operand(size, x, true) < Modulus(size) / 2
  {
  }

  lemma ReadBackUnsigned(size: Size, was: u64, v: int)
    requires 0 <= v < Modulus(size)
    ensures Operand(size, SetLow(was, size, v), false) == v
  {
    SetLowParts(was, size, v);
  }

  lemma ReadBackSigned(size: Size, was: u64, v: int)
    requires -(Modulus(size) / 2) <= v < Modulus(size) / 2
    ensures Operand(size, SetLow(was, size, v), true) == v
  {
    SetLowParts(was, size, v);
    Centred(v, size);
  }

  lemma Centred(v: int, size: Size)
    requires -(Modulus(size) / 2) <= v < Modulus(size) / 2
    ensures Signed(v, Modulus(size)) == v
  {
  }

  // ---------------------------------------------------------- products

  /** `mul` stores the product of the operands, signed or not, modulo the destination width and
      keeps the rest of the register. */
  lemma ProductModulo(s: State, src: Size, dst: Size, d: Reg, a: Reg, b: Reg, signed: bool, f: bool) returns (t: State)
    ensures ExecMul(s, src, dst, d, a, b, signed, f) == Done(t)
    ensures t.regs[d] % Modulus(dst) == (Operand(src, s.regs[a], signed) * Operand(src, s.regs[b],
            signed)) % Modulus(dst)
    ensures UpperKept(s.regs[d], t.regs[d], dst)
  {
    t := ExecMul(s, src, dst, d, a, b, signed, f).s;
    var p := Operand(src, s.regs[a], signed) * Operand(src, s.regs[b], signed);
    SetLowParts(s.regs[d], dst, Wrap(p));
    U.WrapKeepsLow(p, dst);
  }

  lemma ScaledWithin(h: int, y: int, x: int)
    requires x >= 0 && -h <= y <= h
    ensures -(x * h) <= y * x <= x * h
  {
    MulMono(h, y, x);
    MulMono(y, -h, x);
    assert h * x == x * h && (-h) * x == -(x * h);
  }

  lemma ProductFits(h: int, x: int, y: int)
    requires h > 0 && -h <= x < h && -h <= y < h
    ensures -(h * h) <= x * y <= h * h
  {
    if x >= 0 {
      ScaledWithin(h, y, x);
      MulMono(h, x, h);
    } else {
      ScaledWithin(h, -y, -x);
      MulMono(h, -x, h);
      assert (-y) * (-x) == y * x;
    }
    assert x * y == y * x;
  }

  lemma NaturalProductFits(m: int, x: int, y: int)
    requires 0 <= x < m && 0 <= y < m
    ensures 0 <= x * y < m * m
  {
    MulMono(y, 0, x);
    MulMono(m, y, x);
    MulMono(m - 1, x, m);
    assert x * y == y * x && x * m == m * x;
  }

  predicate Wide(src: Size, dst: Size) {
    ByteSize(dst) >= 2 * ByteSize(src)
  }

  lemma WideModulus(src: Size, dst: Size)
    requires Wide(src, dst)
    ensures Modulus(src) * Modulus(src) <= Modulus(dst)
    ensures (Modulus(src) / 2) * (Modulus(src) / 2) < Modulus(dst) / 2
  {
  }

  /** With a destination at least twice as wide as the operands, nothing is lost. */
  lemma ProductExact(s: State, src: Size, dst: Size, d: Reg, a: Reg, b: Reg, signed: bool, f: bool) returns (t: State)
    requires Wide(src, dst)
    ensures ExecMul(s, src, dst, d, a, b, signed, f) == Done(t)
    ensures Operand(dst, t.regs[d], signed) == Operand(src, s.regs[a], signed) * Operand(src, s.regs[b], signed)
  {
    t := ProductModulo(s, src, dst, d, a, b, signed, f);
    var x, y := Operand(src, s.regs[a], signed), Operand(src, s.regs[b], signed);
    OperandRange(src, s.regs[a]);
    OperandRange(src, s.regs[b]);
    WideModulus(src, dst);
    if signed {
      ProductFits(Modulus(src) / 2, x, y);
      Centred(x * y, dst);
    } else {
      NaturalProductFits(Modulus(src), x, y);
      U.SmallResidue(x * y, dst);
    }
  }

  // ---------------------------------------------------------- quotients

  /** Truncated division: the quotient times the divisor plus the remainder is the dividend,
      the remainder is smaller than the divisor and never of the opposite sign of the dividend. */
  lemma Truncated(a: int, b: int)
    requires b != 0
    ensures TruncDiv(a, b) * b + TruncRem(a, b) == a
    ensures -Abs(b) < TruncRem(a, b) < Abs(b)
    ensures (a >= 0 ==> TruncRem(a, b) >= 0) && (a <= 0 ==> TruncRem(a, b) <= 0)
  {
    var x := if a >= 0 then a else -a;
    assert x == b * (x / b) + x % b;
    assert b * -(x / b) == -(b * (x / b));
  }

  function Abs(x: int): int {
    if x >= 0 then x else -x
  }

  lemma QuotientSmaller(a: int, b: int)
    requires b != 0
    ensures Abs(TruncDiv(a, b)) <= Abs(a)
    ensures b != -1 && a != 0 && b != 1 ==> Abs(TruncDiv(a, b)) < Abs(a)
  {
    Truncated(a, b);
    var q, r := TruncDiv(a, b), TruncRem(a, b);
    ProductGrows(q, b);
    SameSigns(q, b, r, a);
    if b != -1 && a != 0 && b != 1 && Abs(q) >= Abs(a) {
      DoubleGrows(q, b);
    }
  }

  lemma ProductGrows(q: int, b: int)
    requires b != 0
    ensures Abs(q * b) >= Abs(q)
  {
    if b > 0 {
      if q >= 0 { MulMono(b, 1, q); assert b * q == q * b; } else { MulMono(b, 1, -q); assert b * -q == -(q * b); }
    } else {
      if q >= 0 { MulMono(-b, 1, q); assert (-b) * q == -(q * b); }
          else { MulMono(-b, 1, -q); assert (-b) * (-q) == q * b; }
    }
  }

  lemma DoubleGrows(q: int, b: int)
    requires Abs(b) >= 2
    ensures Abs(q * b) >= 2 * Abs(q)
  {
    if b > 0 {
      if q >= 0 { MulMono(b, 2, q); assert b * q == q * b; } else { MulMono(b, 2, -q); assert b * -q == -(q * b); }
    } else {
      if q >= 0 { MulMono(-b, 2, q); assert (-b) * q == -(q * b); }
          else { MulMono(-b, 2, -q); assert (-b) * (-q) == q * b; }
    }
  }

  /** q b and r add up to a without cancelling. */
  lemma SameSigns(q: int, b: int, r: int, a: int)
    requires q * b + r == a && (a >= 0 ==> r >= 0) && (a <= 0 ==> r <= 0) && -Abs(b) < r < Abs(b) && b != 0
    ensures Abs(q * b) <= Abs(a)
  {
    if q == 0 {
      assert q * b == 0;
    } else {
      ProductGrows(b, q);
      assert Abs(b * q) >= Abs(b) && b * q == q * b;
    }
  }

  /** The one signed quotient too large for its width. */
  predicate QuotientOverflows(size: Size, a: u64, b: u64, signed: bool) {
    signed && Operand(size, a, true) == -(Modulus(size) / 2) && Operand(size, b, true) == -1
  }

  /** A signed quotient stays within the range of its operands but for the least by -1. */
  lemma SignedQuotient(h: int, x: int, y: int)
    requires h > 0 && y != 0 && -h <= x < h && -h <= y < h
    ensures -h <= TruncDiv(x, y) <= h && (TruncDiv(x, y) == h <==> x == -h && y == -1)
  {
    QuotientSmaller(x, y);
    if y == -1 {
      assert TruncDiv(x, -1) == -x;
    } else if y == 1 {
      assert TruncDiv(x, 1) == x;
    }
  }

  lemma UnsignedQuotient(m: int, x: int, y: int)
    requires 0 <= x < m && 0 < y
    ensures 0 <= TruncDiv(x, y) < m
  {
    ShrinkDiv(x, y);
  }

  lemma QuotientRange(size: Size, a: u64, b: u64, signed: bool)
    requires Operand(size, b, signed) != 0
    ensures var q := TruncDiv(Operand(size, a, signed), Operand(size, b, signed));
            if signed then -(Modulus(size) / 2) <= q <= Modulus(size) / 2
                && (q == Modulus(size) / 2 <==> QuotientOverflows(size, a, b, signed))
            else 0 <= q < Modulus(size)
  {
    OperandRange(size, a);
    OperandRange(size, b);
    if signed {
      SignedQuotient(Modulus(size) / 2, Operand(size, a, true), Operand(size, b, true));
    } else {
      UnsignedQuotient(Modulus(size), Operand(size, a, false), Operand(size, b, false));
    }
  }

  lemma NonZeroDivisor(size: Size, b: u64, signed: bool)
    requires b % Modulus(size) != 0
    ensures Operand(size, b, signed) != 0
  {
  }

  lemma RemainderRange(size: Size, a: u64, b: u64, signed: bool)
    requires Operand(size, b, signed) != 0
    ensures var r := TruncRem(Operand(size, a, signed), Operand(size, b, signed));
            if signed then -(Modulus(size) / 2) <= r < Modulus(size) / 2 else 0 <= r < Modulus(size)
  {
    OperandRange(size, a);
    OperandRange(size, b);
    Truncated(Operand(size, a, signed), Operand(size, b, signed));
  }

  /** Reading back a stored value that fits its width. */
  lemma ReadBack(size: Size, was: u64, v: int, signed: bool)
    requires if signed then -(Modulus(size) / 2) <= v < Modulus(size) / 2 else 0 <= v < Modulus(size)
    ensures Operand(size, SetLow(was, size, v), signed) == v
  {
    if signed { ReadBackSigned(size, was, v); } else { ReadBackUnsigned(size, was, v); }
  }

  /** `div` with different destinations, where it does not panic: the remainder is exact, and
      quotient times divisor plus remainder is the dividend, rounded toward zero, unless the
      quotient is the one that does not fit, which wraps to the least signed value.  What is
      above the width in both registers is kept. */
  lemma DivisionExact(s: State, size: Size, quot: Reg, rem: Reg, lhs: Reg, rhs: Reg, signed: bool, f: bool)
          returns (t: State)
    requires !DivisionPanics(size, s.regs[lhs], s.regs[rhs], signed) && quot != rem
    ensures ExecDiv(s, size, quot, rem, lhs, rhs, signed, f) == Done(t)
    ensures var a, b := Operand(size, s.regs[lhs], signed), Operand(size, s.regs[rhs], signed);
            var q, r := Operand(size, t.regs[quot], signed), Operand(size, t.regs[rem], signed);
            && (if QuotientOverflows(size, s.regs[lhs], s.regs[rhs], signed) then q == a && r == 0 else q * b + r == a)
            && -Abs(b) < r < Abs(b) && (a >= 0 ==> r >= 0) && (a <= 0 ==> r <= 0)
    ensures UpperKept(s.regs[quot], t.regs[quot], size) && UpperKept(s.regs[rem], t.regs[rem], size)
  {
    t := ExecDiv(s, size, quot, rem, lhs, rhs, signed, f).s;
    NonZeroDivisor(size, s.regs[rhs], signed);
    DivisionStores(size, s.regs[lhs], s.regs[rhs], signed, s.regs[quot], s.regs[rem]);
  }

  lemma DivisionStores(size: Size, x: u64, y: u64, signed: bool, wasQuot: u64, wasRem: u64)
    requires Operand(size, y, signed) != 0
    ensures var a, b := Operand(size, x, signed), Operand(size, y, signed);
            var quot, rem := SetLow(wasQuot, size, TruncDiv(a, b)), SetLow(wasRem, size, TruncRem(a, b));
            var q, r := Operand(size, quot, signed), Operand(size, rem, signed);
            && (if QuotientOverflows(size, x, y, signed) then q == a && r == 0 else q * b + r == a)
            && -Abs(b) < r < Abs(b) && (a >= 0 ==> r >= 0) && (a <= 0 ==> r <= 0)
            && UpperKept(wasQuot, quot, size) && UpperKept(wasRem, rem, size)
  {
    var a, b := Operand(size, x, signed), Operand(size, y, signed);
    Truncated(a, b);
    QuotientRange(size, x, y, signed);
    RemainderRange(size, x, y, signed);
    ReadBack(size, wasRem, TruncRem(a, b), signed);
    SetLowParts(wasQuot, size, TruncDiv(a, b));
    SetLowParts(wasRem, size, TruncRem(a, b));
    if QuotientOverflows(size, x, y, signed) {
      WrapsToLeast(wasQuot, size);
    } else {
      ReadBack(size, wasQuot, TruncDiv(a, b), signed);
    }
  }

  lemma WrapsToLeast(was: u64, size: Size)
    ensures Operand(size, SetLow(was, size, Modulus(size) / 2), true) == -(Modulus(size) / 2)
    ensures TruncDiv(-(Modulus(size) / 2), -1) == Modulus(size) / 2 && TruncRem(-(Modulus(size) / 2), -1) == 0
  {
    SetLowParts(was, size, Modulus(size) / 2);
  }
}
