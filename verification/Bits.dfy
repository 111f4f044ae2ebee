/**
 Bits of natural numbers, and the 64-bit machine operators built from them.

 The programs modelled here compute with `u64` masks and shifts.  Every such
 operator is defined bit by bit, and `SameBits` (two numbers with the same bits
 are equal) is what connects a mask expression to its arithmetic meaning.
 */
module Bits {

  const W64: int := 0x1_0000_0000_0000_0000

  type byte = x: int | 0 <= x < 0x100
  type u16 = x: int | 0 <= x < 0x1_0000
  type u32 = x: int | 0 <= x < 0x1_0000_0000
  type u64 = x: int | 0 <= x < 0x1_0000_0000_0000_0000

  const ALL_BITS: u64 := 0xffff_ffff_ffff_ffff

  /** Keeps a definition closed.  A predicate whose body is `forall x {:trigger Opened(x)} :: Opened(x) ==> P`
      means just P, but the solver looks into P only where a proof mentions Opened: a lemma that has
      the fact as its hypothesis and only passes it on stays small, and one that needs P says
      `assert Opened(0);`. */
  predicate Opened(x: int) { true }

  function Pow2(n: nat): (r: int)
    ensures r >= 1
  {
    if n == 0 then 1 else 2 * Pow2(n - 1)
  }

  lemma Pow2Values()
    ensures Pow2(1) == 2 && Pow2(2) == 4 && Pow2(3) == 8 && Pow2(4) == 0x10 && Pow2(5) == 0x20
    ensures Pow2(6) == 0x40 && Pow2(7) == 0x80 && Pow2(8) == 0x100 && Pow2(11) == 0x800 && Pow2(13) == 0x2000
    ensures Pow2(15) == 0x8000 && Pow2(16) == 0x1_0000 && Pow2(22) == 0x40_0000 && Pow2(26) == 0x400_0000
    ensures Pow2(31) == 0x8000_0000 && Pow2(32) == 0x1_0000_0000
    ensures Pow2(63) == 0x8000_0000_0000_0000 && Pow2(64) == W64
  {
    assert Pow2(8) == 0x100;
    assert Pow2(16) == 0x1_0000;
    assert Pow2(24) == 0x100_0000;
    assert Pow2(32) == 0x1_0000_0000;
    assert Pow2(40) == 0x100_0000_0000;
    assert Pow2(48) == 0x1_0000_0000_0000;
    assert Pow2(56) == 0x100_0000_0000_0000;
  }

  lemma {:induction false} Pow2Add(m: nat, n: nat)
    ensures Pow2(m + n) == Pow2(m) * Pow2(n)
  {
    if m > 0 {
      Pow2Add(m - 1, n);
      assert Pow2(m) * Pow2(n) == 2 * (Pow2(m - 1) * Pow2(n));
    }
  }

  lemma {:induction false} Pow2Mono(m: nat, n: nat)
    requires m <= n
    ensures Pow2(m) <= Pow2(n)
    decreases n
  {
    if m < n { Pow2Mono(m, n - 1); }
  }

  /** Bit `i` of `x`. */
  predicate Bit(x: nat, i: nat)
    decreases i, x
  {
    if i == 0 then x % 2 == 1 else Bit(x / 2, i - 1)
  }

  function B(b: bool): (r: nat)
    ensures r <= 1
  {
    if b then 1 else 0
  }

  /** Two numbers below 2^n that agree on their first n bits are equal. */
  lemma {:induction false} SameBits(x: nat, y: nat, n: nat)
    requires x < Pow2(n) && y < Pow2(n)
    requires forall i :: 0 <= i < n ==> Bit(x, i) == Bit(y, i)
    ensures x == y
  {
    if n > 0 {
      assert Bit(x, 0) == Bit(y, 0);
      forall i | 0 <= i < n - 1 ensures Bit(x / 2, i) == Bit(y / 2, i) {
        assert Bit(x, i + 1) == Bit(y, i + 1);
      }
      SameBits(x / 2, y / 2, n - 1);
    }
  }

  lemma {:induction false} HighBitsZero(x: nat, n: nat, i: nat)
    requires x < Pow2(n) && n <= i
    ensures !Bit(x, i)
    decreases i
  {
    if i > 0 {
      HighBitsZero(x / 2, if n == 0 then 0 else n - 1, i - 1);
    }
  }

  // ---------------------------------------------------------------- division

  lemma DivisionUnique(x: int, d: int, q: int, r: int)
    requires d > 0 && 0 <= r < d && x == q * d + r
    ensures x / d == q && x % d == r
  {
    var q', r' := x / d, x % d;
    var e := q - q';
    Distribute(q, q', d);
    assert e * d == r' - r;
    if e >= 1 {
      MulMono(e, 1, d);
      assert false;
    }
    if e <= -1 {
      MulMono(-1, e, d);
      assert false;
    }
  }

  lemma Distribute(a: int, b: int, d: int)
    ensures (a - b) * d == a * d - b * d
  {
  }

  lemma MulMono(x: int, y: int, d: int)
    requires y <= x && 0 <= d
    ensures y * d <= x * d
  {
  }

  /** Halving commutes with dividing by, and reducing modulo, a power of two. */
  lemma HalveDivMod(x: nat, k: nat)
    ensures x / Pow2(k + 1) == (x / 2) / Pow2(k)
    ensures x % Pow2(k + 1) == x % 2 + 2 * ((x / 2) % Pow2(k))
  {
    var p := Pow2(k);
    var h := x / 2;
    var q, r := h / p, h % p;
    assert h == q * p + r;
    assert x == q * (2 * p) + (x % 2 + 2 * r);
    DivisionUnique(x, 2 * p, q, x % 2 + 2 * r);
  }

  lemma {:induction false} ModBit(x: nat, k: nat, i: nat)
    ensures Bit(x % Pow2(k), i) == (i < k && Bit(x, i))
    decreases i
  {
    if k == 0 {
      HighBitsZero(0, 0, i);
    } else {
      HalveDivMod(x, k - 1);
      if i > 0 {
        ModBit(x / 2, k - 1, i - 1);
      }
    }
  }

  lemma {:induction false} DivBit(x: nat, k: nat, i: nat)
    ensures 0 <= x / Pow2(k)
    ensures Bit(x / Pow2(k), i) == Bit(x, i + k)
    decreases k
  {
    ShrinkDiv(x, Pow2(k));
    if k > 0 {
      HalvedDivision(x, k - 1);
      DivBit(x / 2, k - 1, i);
      BitOfHalf(x, i + k - 1);
    }
  }

  lemma HalvedDivision(x: nat, k: nat)
    ensures 0 <= (x / 2) / Pow2(k) == x / Pow2(k + 1)
  {
    HalveDivMod(x, k);
  }

  lemma BitOfHalf(x: nat, i: nat)
    ensures Bit(x, i + 1) == Bit(x / 2, i)
  {
  }

  lemma {:induction false} MulBit(x: nat, k: nat, i: nat)
    ensures 0 <= x * Pow2(k)
    ensures Bit(x * Pow2(k), i) == (k <= i && Bit(x, i - k))
    decreases k
  {
    if k > 0 {
      MulBit(x, k - 1, if i == 0 then 0 else i - 1);
      assert x * Pow2(k) == 2 * (x * Pow2(k - 1));
    }
  }

  /** Adding 2^n to a number below 2^n sets exactly bit n. */
  lemma {:induction false} AddTopBit(x: nat, n: nat, i: nat)
    requires x < Pow2(n)
    ensures Bit(x + Pow2(n), i) == (i == n || Bit(x, i))
    decreases i
  {
    if n == 0 {
      if i > 0 { HighBitsZero(0, 0, i - 1); HighBitsZero(0, 0, i); }
    } else {
      assert (x + Pow2(n)) / 2 == x / 2 + Pow2(n - 1);
      if i > 0 { AddTopBit(x / 2, n - 1, i - 1); }
    }
  }

  lemma {:induction false} MaskBit(k: nat, i: nat)
    ensures Bit(Pow2(k) - 1, i) == (i < k)
    decreases i
  {
    if k == 0 {
      HighBitsZero(0, 0, i);
    } else {
      assert (Pow2(k) - 1) / 2 == Pow2(k - 1) - 1;
      if i > 0 { MaskBit(k - 1, i - 1); }
    }
  }

  // -------------------------------------------------- bitwise operators

  datatype LogicOp = AND | OR | XOR

  predicate Combine(op: LogicOp, a: bool, b: bool) {
    match op
    case AND => a && b
    case OR => a || b
    case XOR => a != b
  }

  /** The n-bit result of a bitwise operator. */
  function Bitwise(op: LogicOp, x: nat, y: nat, n: nat): (r: nat)
    ensures r < Pow2(n)
    decreases n, x, y
  {
    if n == 0 then 0
    else B(Combine(op, Bit(x, 0), Bit(y, 0))) + 2 * Bitwise(op, x / 2, y / 2, n - 1)
  }

  lemma {:induction false} BitwiseBit(op: LogicOp, x: nat, y: nat, n: nat, i: nat)
    requires i < n
    ensures Bit(Bitwise(op, x, y, n), i) == Combine(op, Bit(x, i), Bit(y, i))
    decreases n
  {
    var r := Bitwise(op, x / 2, y / 2, n - 1);
    var b := B(Combine(op, Bit(x, 0), Bit(y, 0)));
    assert (b + 2 * r) / 2 == r && (b + 2 * r) % 2 == b;
    if i > 0 { BitwiseBit(op, x / 2, y / 2, n - 1, i - 1); }
  }

  function And(x: u64, y: u64): u64 { Pow2Values(); Bitwise(AND, x, y, 64) }
  function Or(x: u64, y: u64): u64 { Pow2Values(); Bitwise(OR, x, y, 64) }
  function Not(x: u64): u64 { ALL_BITS - x }

  lemma AndBit(x: u64, y: u64, i: nat)
    requires i < 64
    ensures Bit(And(x, y), i) == (Bit(x, i) && Bit(y, i))
  {
    BitwiseBit(AND, x, y, 64, i);
  }

  lemma OrBit(x: u64, y: u64, i: nat)
    requires i < 64
    ensures Bit(Or(x, y), i) == (Bit(x, i) || Bit(y, i))
  {
    BitwiseBit(OR, x, y, 64, i);
  }

  lemma SameWords(x: u64, y: u64)
    requires forall i :: 0 <= i < 64 ==> Bit(x, i) == Bit(y, i)
    ensures x == y
  {
    Pow2Values();
    SameBits(x, y, 64);
  }

  lemma Pow2Word(k: nat)
    ensures k <= 64 ==> Pow2(k) <= W64
    ensures k <= 63 ==> Pow2(k) <= W64 / 2
  {
    Pow2Values();
    if k <= 63 { Pow2Mono(k, 63); }
  }

  lemma {:induction false} NotBitAt(x: nat, n: nat, i: nat)
    requires x < Pow2(n) && i < n
    ensures Bit(Pow2(n) - 1 - x, i) == !Bit(x, i)
    decreases n
  {
    assert (Pow2(n) - 1 - x) / 2 == Pow2(n - 1) - 1 - x / 2;
    if i > 0 { NotBitAt(x / 2, n - 1, i - 1); }
  }

  lemma NotBit(x: u64, i: nat)
    requires i < 64
    ensures Bit(Not(x), i) == !Bit(x, i)
  {
    Pow2Values();
    NotBitAt(x, 64, i);
  }

  /** `x << k` on u64.  A caller whose amount may reach 64 passes it modulo 64, as a release build does. */
  function Shl(x: u64, k: nat): u64
    requires k < 64
  {
    (x * Pow2(k)) % W64
  }

  /** `checked_shl(k).unwrap_or(0)`. */
  function CheckedShl(x: u64, k: nat): u64 { if k < 64 then Shl(x, k) else 0 }

  function Shr(x: u64, k: nat): (r: u64)
    requires k < 64
  {
    ShrinkDiv(x, Pow2(k));
    x / Pow2(k)
  }

  /** `checked_shr(k).unwrap_or(0)`. */
  function CheckedShr(x: u64, k: nat): u64 { if k < 64 then Shr(x, k) else 0 }

  lemma ShrinkDiv(x: nat, d: int)
    requires d >= 1
    ensures 0 <= x / d <= x
  {
    var q := x / d;
    assert x == q * d + x % d;
    if q >= x + 1 { MulMono(q, x + 1, d); MulMono(d, 1, x + 1); assert false; }
    if q <= -1 { MulMono(-1, q, d); assert false; }
  }

  lemma DivideSelf(d: int)
    requires d >= 1
    ensures d / d == 1 && d % d == 0 && 0 / d == 0 && 0 % d == 0
  {
    DivisionUnique(d, d, 1, 0);
    DivisionUnique(0, d, 0, 0);
  }

  lemma ShlOne(i: nat)
    requires i < 64
    ensures Pow2(i) <= W64 / 2
    ensures Shl(1, i) == Pow2(i) && Shl(0, i) == 0
  {
    Pow2Word(i);
  }

  lemma ShlBit(x: u64, k: nat, i: nat)
    requires k < 64 && i < 64
    ensures Bit(Shl(x, k), i) == (k <= i && Bit(x, i - k))
  {
    Pow2Values();
    MulBit(x, k, i);
    ModBit(x * Pow2(k), 64, i);
  }

  lemma AllBitsBit(i: nat)
    requires i < 64
    ensures Bit(ALL_BITS, i)
  {
    Pow2Values();
    MaskBit(64, i);
  }

  // ------------------------------------------- masks and their arithmetic

  /** `x & (2^k - 1)` is the remainder modulo 2^k. */
  lemma AndLowMask(x: u64, k: nat)
    requires k <= 64
    ensures Pow2(k) <= W64
    ensures And(x, Pow2(k) - 1) == x % Pow2(k)
  {
    Pow2Word(k);
    forall i | 0 <= i < 64 ensures Bit(And(x, Pow2(k) - 1), i) == Bit(x % Pow2(k), i) {
      AndBit(x, Pow2(k) - 1, i);
      MaskBit(k, i);
      ModBit(x, k, i);
    }
    SameWords(And(x, Pow2(k) - 1), x % Pow2(k));
  }

  /** A multiple of 2^k has no low bits, and adding a number below 2^k fills them in. */
  lemma {:induction false} SplitBit(z: nat, k: nat, y: nat, i: nat)
    requires z % Pow2(k) == 0 && y < Pow2(k)
    ensures Bit(z + y, i) == if i < k then Bit(y, i) else Bit(z, i)
    decreases k
  {
    if k > 0 {
      HalveDivMod(z, k - 1);
      assert (z + y) / 2 == z / 2 + y / 2 && (z + y) % 2 == y % 2;
      if i > 0 { SplitBit(z / 2, k - 1, y / 2, i - 1); }
    }
  }

  lemma RoundDown(x: nat, k: nat)
    ensures 0 <= x - x % Pow2(k)
    ensures (x - x % Pow2(k)) % Pow2(k) == 0
  {
    var p := Pow2(k);
    var q := x / p;
    assert x == q * p + x % p;
    if q <= -1 { MulMono(-1, q, p); assert false; }
    MulMono(q, 0, p);
    DivisionUnique(x - x % p, p, q, 0);
  }

  lemma RoundDownBit(x: nat, k: nat, i: nat)
    ensures 0 <= x - x % Pow2(k)
    ensures Bit(x - x % Pow2(k), i) == (k <= i && Bit(x, i))
  {
    RoundDown(x, k);
    var z := x - x % Pow2(k);
    SplitBit(z, k, x % Pow2(k), i);
    SplitBit(z, k, 0, i);
    if i < k { HighBitsZero(0, 0, i); }
  }

  lemma HighMaskBit(x: u64, m: u64, k: nat, i: nat)
    requires k <= 64 && i < 64 && m == W64 - Pow2(k)
    ensures Bit(And(x, m), i) == (k <= i && Bit(x, i))
  {
    AndBit(x, m, i);
    NotBit(Pow2(k) - 1, i);
    MaskBit(k, i);
  }

  /** Clearing the low k bits rounds down to a multiple of 2^k. */
  lemma AndHighMask(x: u64, k: nat)
    requires k <= 64
    ensures Pow2(k) <= W64
    ensures And(x, W64 - Pow2(k)) == x - x % Pow2(k)
  {
    Pow2Word(k);
    var m: u64 := W64 - Pow2(k);
    RoundDown(x, k);
    var z: u64 := x - x % Pow2(k);
    forall i | 0 <= i < 64 ensures Bit(And(x, m), i) == Bit(z, i) {
      HighMaskBit(x, m, k, i);
      RoundDownBit(x, k, i);
    }
    SameWords(And(x, m), z);
  }

  /** Or-ing a number below 2^k into a multiple of 2^k adds it. */
  lemma OrAdds(z: u64, k: nat, y: u64)
    requires k <= 64 && z % Pow2(k) == 0 && y < Pow2(k) && z + y < W64
    ensures Or(z, y) == z + y == Or(y, z)
  {
    forall i | 0 <= i < 64 ensures Bit(Or(z, y), i) == Bit(z + y, i) && Bit(Or(y, z), i) == Bit(z + y, i) {
      OrBit(z, y, i);
      OrBit(y, z, i);
      SplitBit(z, k, y, i);
      SplitBit(z, k, 0, i);
      if i < k { HighBitsZero(0, 0, i); } else { HighBitsZero(y, k, i); }
    }
    SameWords(Or(z, y), z + y);
    SameWords(Or(y, z), z + y);
  }

  lemma SingleBit(i: nat, j: nat)
    ensures Bit(Pow2(i), j) == (i == j)
  {
    AddTopBit(0, i, j);
    HighBitsZero(0, 0, j);
  }

  /** `(x & (1 << i)) != 0` tests bit i. */
  lemma AndSingleBit(x: u64, i: nat)
    requires i < 64
    ensures Pow2(i) < W64
    ensures And(x, Pow2(i)) == if Bit(x, i) then Pow2(i) else 0
  {
    Pow2Word(i);
    var p: u64 := Pow2(i);
    var want: u64 := if Bit(x, i) then p else 0;
    forall j | 0 <= j < 64 ensures Bit(And(x, p), j) == Bit(want, j) {
      AndBit(x, p, j);
      SingleBit(i, j);
      HighBitsZero(0, 0, j);
    }
    SameWords(And(x, p), want);
  }
}
