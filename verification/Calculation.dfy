/** The assembler's constant arithmetic, said of expressions and in integers and bits. */
module Calculation {
  import opened Bits
  import opened Machine
  import opened Expressions
  import Shifts
  import U = Util

  /** The two operands have values x and y. */
  predicate Values(l: Expr, r: Expr, names: Names, here: u64, x: u64, y: u64) {
    Eval(l, names, here) == Ok(x) && Eval(r, names, here) == Ok(y)
  }

  /** v is the word that differs from n by a multiple of 2^64, and n itself where n is a word. */
  predicate IsWordOf(v: u64, n: int) {
    (n - v) % W64 == 0 && (0 <= n < W64 ==> v == n)
  }

  lemma WrapIsWordOf(n: int)
    ensures IsWordOf(Wrap(n), n)
  {
    DivisionUnique(n - Wrap(n), W64, n / W64, 0);
  }

  /** Sums and products below 2^64 are exact, and other ones are so modulo 2^64. */
  lemma SumsAndProducts(l: Expr, r: Expr, names: Names, here: u64, x: u64, y: u64) returns (sum: u64, product: u64)
    requires Values(l, r, names, here, x, y)
    ensures Eval(Bin(AddOp, l, r), names, here) == Ok(sum) && IsWordOf(sum, x as int + y as int)
    ensures Eval(Bin(MulOp, l, r), names, here) == Ok(product) && IsWordOf(product, x as int * y as int)
  {
    sum, product := Wrap(x + y), Wrap(x * y);
    WrapIsWordOf(x + y);
    WrapIsWordOf(x * y);
  }

  /** A difference is what must be added to the right operand to make the left one. */
  lemma Differences(l: Expr, r: Expr, names: Names, here: u64, x: u64, y: u64) returns (v: u64)
    requires Values(l, r, names, here, x, y)
    ensures Eval(Bin(SubOp, l, r), names, here) == Ok(v) && (y <= x ==> v + y as int == x)
    ensures Eval(Bin(AddOp, Bin(SubOp, l, r), r), names, here) == Ok(x)
  {
    v := Restoring(x, y);
    assert Eval(Bin(SubOp, l, r), names, here) == Ok(v);
  }

  lemma Restoring(x: u64, y: u64) returns (v: u64)
    ensures v == Wrap(x - y) && Wrap(v + y) == x && (y <= x ==> v + y as int == x)
  {
    v := Wrap(x - y);
    WrapSum(x - y, y);
    Small64(x);
    if y <= x { Small64(x - y); }
  }

  /** A negation and its operand add up to zero. */
  lemma Negations(e: Expr, names: Names, here: u64, x: u64) returns (v: u64)
    requires Eval(e, names, here) == Ok(x)
    ensures Eval(Neg(e), names, here) == Ok(v) && (v + x as int) % W64 == 0
    ensures Eval(Bin(AddOp, Neg(e), e), names, here) == Ok(0)
  {
    v := Wrap(-(x as int));
    WrapSum(-(x as int), x);
    assert Eval(Neg(e), names, here) == Ok(v);
  }

  /** Quotient times divisor plus remainder is the dividend, and the remainder is below the divisor;
      both operators fail exactly on zero. */
  lemma Quotients(l: Expr, r: Expr, names: Names, here: u64, x: u64, y: u64) returns (q: u64, m: u64)
    requires Values(l, r, names, here, x, y)
    ensures y == 0 ==> Eval(Bin(DivOp, l, r), names, here) == Err(DivideByZero) == Eval(Bin(RemOp, l, r), names, here)
    ensures y != 0 ==> Eval(Bin(DivOp, l, r), names, here) == Ok(q) && Eval(Bin(RemOp, l, r), names, here) == Ok(m)
                       && (q as int) * y + m == x && m < y
  {
    q, m := 0, 0;
    if y != 0 { q, m := DivisionParts(x, y); }
    Divided(l, r, names, here, x, y);
    Remaining(l, r, names, here, x, y);
  }

  lemma DivisionParts(x: u64, y: u64) returns (q: u64, m: u64)
    requires y > 0
    ensures q == x / y && m == x % y && (q as int) * y + m == x && m < y
  {
    ShrinkDiv(x, y);
    SmallRemainder(x, y);
    q, m := x / y, x % y;
  }

  lemma Divided(l: Expr, r: Expr, names: Names, here: u64, x: u64, y: u64)
    requires Values(l, r, names, here, x, y)
    ensures y == 0 ==> Eval(Bin(DivOp, l, r), names, here) == Err(DivideByZero)
    ensures y != 0 ==> 0 <= x / y < W64 && Eval(Bin(DivOp, l, r), names, here) == Ok(x / y)
  {
    if y != 0 { ShrinkDiv(x, y); }
  }

  lemma Remaining(l: Expr, r: Expr, names: Names, here: u64, x: u64, y: u64)
    requires Values(l, r, names, here, x, y)
    ensures y == 0 ==> Eval(Bin(RemOp, l, r), names, here) == Err(DivideByZero)
    ensures y != 0 ==> 0 <= x % y < W64 && Eval(Bin(RemOp, l, r), names, here) == Ok(x % y)
  {
    if y != 0 { SmallRemainder(x, y); }
  }

  /** Bit by bit, and complement. */
  lemma BitOperators(l: Expr, r: Expr, names: Names, here: u64, x: u64, y: u64)
          returns (conj: u64, disj: u64, either: u64, not: u64)
    requires Values(l, r, names, here, x, y)
    ensures Eval(Bin(AndOp, l, r), names, here) == Ok(conj) && Eval(Bin(OrOp, l, r), names, here) == Ok(disj)
    ensures Eval(Bin(XorOp, l, r), names, here) == Ok(either) && Eval(Expr.Not(l), names, here) == Ok(not)
    ensures forall i :: 0 <= i < 64 ==>
              && Bit(conj, i) == (Bit(x, i) && Bit(y, i)) && Bit(disj, i) == (Bit(x, i) || Bit(y, i))
              && Bit(either, i) == (Bit(x, i) != Bit(y, i)) && Bit(not, i) == !Bit(x, i)
  {
    Pow2Values();
    conj, disj, either, not := And(x, y), Or(x, y), Bitwise(XOR, x, y, 64), Bits.Not(x);
    forall i | 0 <= i < 64
      ensures && Bit(conj, i) == (Bit(x, i) && Bit(y, i)) && Bit(disj, i) == (Bit(x, i) || Bit(y, i))
              && Bit(either, i) == (Bit(x, i) != Bit(y, i)) && Bit(not, i) == !Bit(x, i)
    {
      AndBit(x, y, i);
      OrBit(x, y, i);
      BitwiseBit(XOR, x, y, 64, i);
      NotBit(x, i);
    }
  }

  lemma ShiftedBits(x: u64, k: nat, i: nat)
    requires i < 64
    ensures Bit(CheckedShl(x, k), i) == (k <= i && Bit(x, i - k))
    ensures Bit(CheckedShr(x, k), i) == (i + k < 64 && Bit(x, i + k))
    ensures Bit(CheckedSar(x, k), i) == Bit(x, if i + k < 63 then i + k else 63)
  {
    Shifts.WordSign(x);
    HighBitsZero(0, 0, i);
    AllBitsBit(i);
    if k < 64 {
      ShlBit(x, k, i);
      DivBit(x, k, i);
      if i + k >= 64 { HighBitsZero(x, 64, i + k); }
      Shifts.SarBit(x, k, i);
    }
  }

  /** Shifts move bits by the low half of the right operand: zeros come in, but from above in an
      arithmetic shift right, which repeats bit 63. */
  lemma ShiftOperators(l: Expr, r: Expr, names: Names, here: u64, x: u64, y: u64)
          returns (left: u64, right: u64, arithmetic: u64)
    requires Values(l, r, names, here, x, y)
    ensures Eval(Bin(ShlOp, l, r), names, here) == Ok(left) && Eval(Bin(ShrOp, l, r), names, here) == Ok(right)
    ensures Eval(Bin(SarOp, l, r), names, here) == Ok(arithmetic)
    ensures forall i :: 0 <= i < 64 ==>
              var k := y % 0x1_0000_0000;
              && Bit(left, i) == (k <= i && Bit(x, i - k)) && Bit(right, i) == (i + k < 64 && Bit(x, i + k))
              && Bit(arithmetic, i) == Bit(x, if i + k < 63 then i + k else 63)
  {
    var k := y % 0x1_0000_0000;
    left, right, arithmetic := CheckedShl(x, k), CheckedShr(x, k), CheckedSar(x, k);
    forall i | 0 <= i < 64
      ensures && Bit(left, i) == (k <= i && Bit(x, i - k)) && Bit(right, i) == (i + k < 64 && Bit(x, i + k))
              && Bit(arithmetic, i) == Bit(x, if i + k < 63 then i + k else 63)
    {
      ShiftedBits(x, k, i);
    }
  }

  /** What has a value: numbers, known names, `$`, and operators whose operands have values and whose
      divisor is not zero; the first operand without one decides the error. */
  lemma ValueOrError(op: BinOp, l: Expr, r: Expr, names: Names, here: u64)
    ensures var e := Eval(Bin(op, l, r), names, here);
            && (Eval(l, names, here).Err? ==> e == Err(Eval(l, names, here).error))
            && (Eval(l, names, here).Ok? && Eval(r, names, here).Err? ==> e == Err(Eval(r, names, here).error))
            && (e.Ok? <==> Eval(l, names, here).Ok? && Eval(r, names, here).Ok?
                           && !((op.DivOp? || op.RemOp?) && Eval(r, names, here) == Ok(0)))
    ensures Eval(Neg(l), names, here).Ok? == Eval(Expr.Not(l), names, here).Ok? == Eval(l, names, here).Ok?
    ensures Eval(l, names, here).Err?
            ==> Eval(Neg(l), names, here) == Eval(l, names, here) == Eval(Expr.Not(l), names, here)
  {
  }

  lemma Leaves(v: u64, name: string, names: Names, here: u64)
    ensures Eval(Int(v), names, here) == Ok(v) && Eval(Here, names, here) == Ok(here)
    ensures Eval(Ident(name), names, here) == if name in names then Ok(names[name]) else Err(UnknownName(name))
  {
  }
}
