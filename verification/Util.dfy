/**
 The emulator's register, width and flag helpers, written with the masks and shifts
 the emulator uses.  Each contract says what the masks compute.
 */
module Util {
  import opened Bits
  import opened Isa
  import opened Memory
  import opened Machine
  import D = Decoder

  // ---------------------------------------------------------- extensions

  lemma AllBitsDivided(p: int, q: int)
    requires p >= 1 && q >= 1 && p * q == W64
    ensures ALL_BITS / p == q - 1 && (ALL_BITS * p) % W64 == W64 - p
    ensures (W64 - p) % p == 0 && p <= W64
  {
    Distribute(q, 1, p);
    MulMono(q, 1, p);
    DivisionUnique(ALL_BITS, p, q - 1, p - 1);
    DivisionUnique(W64 - p, p, q - 1, 0);
    DivisionUnique(ALL_BITS * p, W64, p - 1, W64 - p);
  }

  lemma AllBitsShifted(k: nat)
    requires k < 64
    ensures Pow2(k) < W64 && (W64 - Pow2(k)) % Pow2(k) == 0
    ensures Shr(ALL_BITS, k) == Pow2(64 - k) - 1
    ensures Shl(ALL_BITS, k) == W64 - Pow2(k)
  {
    Pow2Word(k);
    TwoPowers(k);
    AllBitsDivided(Pow2(k), Pow2(64 - k));
  }

  lemma TwoPowers(k: nat)
    requires k <= 64
    ensures Pow2(k) * Pow2(64 - k) == W64
  {
    Pow2Values();
    Pow2Add(k, 64 - k);
  }

  function ZeroExtendImmediate(immediate: u64, width: nat): (r: u64)
    requires width <= 64
    ensures r == immediate % Pow2(width)
  {
    if width > 0 then
      AllBitsShifted(64 - width);
      AndLowMask(immediate, width);
      And(immediate, CheckedShr(ALL_BITS, 64 - width))
    else
      AndLowMask(immediate, 0);
      And(immediate, CheckedShr(ALL_BITS, 64))
  }

  /** Sign extension is the signed value of the low bits, wrapped. */
  function SignExtendImmediate(immediate: u64, width: nat): (r: u64)
    requires 1 <= width <= 64
    ensures r == Wrap(Signed(immediate, Pow2(width)))
  {
    var masked := ZeroExtendImmediate(immediate, width);
    ShlOne(width - 1);
    AndSingleBit(masked, width - 1);
    SignBit(immediate, width);
    if And(masked, Shl(1, width - 1)) != 0 then
      ExtendWithOnes(masked, width);
      WrapSame(immediate, masked, Pow2(width));
      Or(masked, CheckedShl(ALL_BITS, width))
    else
      WrapSame(immediate, masked, Pow2(width));
      masked
  }

  lemma WrapSame(x: u64, low: u64, m: int)
    requires m > 0 && low == x % m
    ensures Wrap(Signed(x, m)) == if low < m / 2 then low else Wrap(low - m)
  {
  }

  lemma SignBit(x: u64, width: nat)
    requires 1 <= width <= 64
    ensures Pow2(width) / 2 == Pow2(width - 1)
    ensures Bit(x % Pow2(width), width - 1) == (x % Pow2(width) >= Pow2(width) / 2)
  {
    var h := Pow2(width - 1);
    var m := x % Pow2(width);
    if m < h {
      HighBitsZero(m, width - 1, width - 1);
    } else {
      AddTopBit(m - h, width - 1, width - 1);
    }
  }

  lemma ExtendWithOnes(masked: u64, width: nat)
    requires 1 <= width <= 64 && masked < Pow2(width)
    ensures Or(masked, CheckedShl(ALL_BITS, width)) == Wrap(masked - Pow2(width))
  {
    if width < 64 {
      AllBitsShifted(width);
      OrAdds(W64 - Pow2(width), width, masked);
      WrapNegative(masked - Pow2(width));
    } else {
      TwoPowers(64);
      DivideSelf(Pow2(64));
      OrAdds(0, 64, masked);
      WrapNegative(masked - Pow2(width));
    }
  }

  lemma WrapNegative(x: int)
    requires -W64 <= x < 0
    ensures Wrap(x) == x + W64
  {
  }

  // -------------------------------------------------------------- widths

  function MsbIndex(size: Size): nat { BitSize(size) - 1 }

  function SizeMask(size: Size): (r: u64)
    ensures r == Modulus(size) - 1
  {
    ModulusIsPow2(size);
    AllBitsShifted(64 - BitSize(size));
    Shr(ALL_BITS, 64 - BitSize(size))
  }

  lemma MaskIsMod(x: u64, size: Size)
    ensures And(x, SizeMask(size)) == x % Modulus(size)
  {
    ModulusIsPow2(size);
    AndLowMask(x, BitSize(size));
  }

  function GetUnsigned(reg: u64, size: Size): (r: u64)
    ensures r == reg % Modulus(size)
  {
    ModulusIsPow2(size);
    ZeroExtendImmediate(reg, BitSize(size))
  }

  /** The low part of a register as a sign-extended two's complement word. */
  function GetSigned(reg: u64, size: Size): (r: u64)
    ensures r == Wrap(Signed(reg, Modulus(size)))
    ensures r % Modulus(size) == reg % Modulus(size)
  {
    ModulusIsPow2(size);
    SignedKeepsLow(reg, size);
    SignExtendImmediate(reg, BitSize(size))
  }

  lemma SignedKeepsLow(reg: u64, size: Size)
    ensures Wrap(Signed(reg, Modulus(size))) % Modulus(size) == reg % Modulus(size)
  {
    var x := Signed(reg, Modulus(size));
    WrapKeepsLow(x, size);
    ModShift(reg % Modulus(size), -1, Modulus(size));
  }

  /** `set`: the masks replace exactly the low part. */
  function RegisterSet(was: u64, size: Size, value: u64): (r: u64)
    ensures r == SetLow(was, size, value)
  {
    var preserve := CheckedShl(ALL_BITS, BitSize(size));
    PreserveMask(was, value, size);
    Or(And(was, preserve), And(value, Not(preserve)))
  }

  lemma PreserveMask(was: u64, value: u64, size: Size)
    ensures var preserve := CheckedShl(ALL_BITS, BitSize(size));
            Or(And(was, preserve), And(value, Not(preserve))) == SetLow(was, size, value)
  {
    var k := BitSize(size);
    ModulusIsPow2(size);
    if k < 64 {
      AllBitsShifted(k);
    }
    SetLowSum(was, size, value);
    MaskedParts(was, value, k, Modulus(size));
  }

  lemma MaskedParts(was: u64, value: u64, k: nat, m: int)
    requires k <= 64 && m == Pow2(k) && m <= W64 && was - was % m + value % m < W64
    ensures Or(And(was, W64 - m), And(value, m - 1)) == was - was % m + value % m
  {
    AndHighMask(was, k);
    AndLowMask(value, k);
    RoundDown(was, k);
    ModRange(value, m);
    OrAdds(was - was % m, k, value % m);
  }

  lemma SetLowSum(was: u64, size: Size, value: u64)
    ensures SetLow(was, size, value) == was - was % Modulus(size) + value % Modulus(size)
  {
  }

  lemma SetLowTwice(was: u64, size: Size, v: int)
    ensures SetLow(was, size, v % Modulus(size)) == SetLow(was, size, v)
  {
  }

  /** The two's complement reading of a word. */
  function AsI64(x: u64): int { Signed(x, W64) }

  lemma Unwrapped(y: int)
    requires -0x8000_0000_0000_0000 <= y < 0x8000_0000_0000_0000
    ensures AsI64(Wrap(y)) == y
  {
  }

  lemma SignedRange(x: u64, size: Size)
    ensures -0x8000_0000_0000_0000 <= Signed(x, Modulus(size)) < 0x8000_0000_0000_0000
  {
  }

  lemma SignedAsI64(reg: u64, size: Size)
    ensures AsI64(GetSigned(reg, size)) == Signed(reg, Modulus(size))
  {
    SignedRange(reg, size);
    Unwrapped(Signed(reg, Modulus(size)));
  }

  function WrappingAdd(a: u64, b: u64): u64 {
    var sum: int := a + b;
    Wrap(sum)
  }

  function WrappingSub(a: u64, b: u64): u64 {
    var difference: int := a - b;
    Wrap(difference)
  }

  // ---------------------------------------------------------------- bits

  function BitAsBool(x: u64, index: nat): (r: bool)
    requires index < 64
    ensures r == Bit(x, index)
  {
    ShlOne(index);
    AndSingleBit(x, index);
    And(x, Shl(1, index)) != 0
  }

  function SetBitWithBool(x: u64, index: nat, value: bool): u64
    requires index < 64
  {
    if value then Or(x, Shl(1, index)) else And(x, Not(Shl(1, index)))
  }

  lemma SetBitEffect(x: u64, index: nat, value: bool, j: nat)
    requires index < 64 && j < 64
    ensures Bit(SetBitWithBool(x, index, value), j) == if j == index then value else Bit(x, j)
  {
    ShlOne(index);
    SingleBit(index, j);
    OrBit(x, Shl(1, index), j);
    NotBit(Shl(1, index), j);
    AndBit(x, Not(Shl(1, index)), j);
  }

  /** Setting one of the six flag bits changes that flag and keeps all other bits clear. */
  lemma SetFlagBit(x: u64, index: nat, value: bool)
    requires x < 64 && index < 6
    ensures SetBitWithBool(x, index, value) < 64
    ensures forall j :: 0 <= j < 6 ==> Bit(SetBitWithBool(x, index, value), j) == if j == index then value
            else Bit(x, j)
  {
    var r := SetBitWithBool(x, index, value);
    Pow2Values();
    forall j | 0 <= j < 64 ensures Bit(r, j) == if j == index then value else Bit(x, j) {
      SetBitEffect(x, index, value, j);
    }
    forall j | 0 <= j < 64 ensures Bit(r, j) == Bit(r % 64, j) {
      ModBit(r, 6, j);
      if j >= 6 { HighBitsZero(x, 6, j); }
    }
    SameWords(r, r % 64);
  }

  // ---------------------------------------------------------- CPU flags

  /** What setting flag bit `index` of a packed word does to the unpacked flags. */
  lemma FlagsAfter(x: u64, index: nat, value: bool)
    requires x < 64 && index < 6
    ensures SetBitWithBool(x, index, value) < 64
    ensures var f, g := FlagsOf(x), FlagsOf(SetBitWithBool(x, index, value));
            && g.carry == (if index == 0 then value else f.carry)
            && g.zero == (if index == 1 then value else f.zero)
            && g.overflow == (if index == 2 then value else f.overflow)
            && g.sign == (if index == 3 then value else f.sign)
            && g.enabled == (if index == 4 then value else f.enabled)
            && g.pl1 == (if index == 5 then value else f.pl1)
  {
    SetFlagBit(x, index, value);
  }

  type FlagWord = x: nat | x < 64

  function SetCarry(x: FlagWord, v: bool): (r: FlagWord)
    ensures FlagsOf(r) == FlagsOf(x).(carry := v)
  {
    FlagsAfter(x, 0, v);
    SetBitWithBool(x, 0, v)
  }

  function SetZero(x: FlagWord, v: bool): (r: FlagWord)
    ensures FlagsOf(r) == FlagsOf(x).(zero := v)
  {
    FlagsAfter(x, 1, v);
    SetBitWithBool(x, 1, v)
  }

  function SetOverflow(x: FlagWord, v: bool): (r: FlagWord)
    ensures FlagsOf(r) == FlagsOf(x).(overflow := v)
  {
    FlagsAfter(x, 2, v);
    SetBitWithBool(x, 2, v)
  }

  function SetSign(x: FlagWord, v: bool): (r: FlagWord)
    ensures FlagsOf(r) == FlagsOf(x).(sign := v)
  {
    FlagsAfter(x, 3, v);
    SetBitWithBool(x, 3, v)
  }

  function SetExceptionsEnabled(x: FlagWord, v: bool): (r: FlagWord)
    ensures FlagsOf(r) == FlagsOf(x).(enabled := v)
  {
    FlagsAfter(x, 4, v);
    SetBitWithBool(x, 4, v)
  }

  function SetPrivilegeLevel(x: FlagWord, v: bool): (r: FlagWord)
    ensures FlagsOf(r) == FlagsOf(x).(pl1 := v)
  {
    FlagsAfter(x, 5, v);
    SetBitWithBool(x, 5, v)
  }

  /** A flag word below 64 is determined by its six flags. */
  lemma FlagsRoundTrip(x: FlagWord)
    ensures FlagsWord(FlagsOf(x)) == x
  {
    D.SixBits(x);
  }

  /** The top bit of the low part says whether the low part is at least half its modulus. */
  lemma MsbIsSign(x: u64, size: Size)
    ensures Bit(x, MsbIndex(size)) == (x % Modulus(size) >= Modulus(size) / 2)
  {
    ModulusIsPow2(size);
    SignBit(x, BitSize(size));
    ModBit(x, BitSize(size), MsbIndex(size));
  }

  // ---------------------------------------------------------- immediates

  /** The shift amounts 66 and 77 of the last two factors are taken modulo 64. */
  function Imm11WithShiftFactor(imm: imm11, factor: imm3, signExtend: bool): u64 {
    var k := 11 * factor;
    var shifted := Shl(imm, if k < 64 then k else k - 64);
    if signExtend && k + 10 < 63 && BitAsBool(shifted, k + 10) then Or(shifted, Shl(ALL_BITS, k + 11)) else shifted
  }

  lemma ShiftedImm(imm: imm11, k: nat)
    requires k <= 44
    ensures Shl(imm, k) == imm * Pow2(k) < Pow2(k + 11) <= W64 / 2
    ensures Pow2(k + 11) == 0x800 * Pow2(k)
    ensures Bit(Shl(imm, k), k + 10) == (imm >= 0x400)
  {
    Pow2Values();
    Pow2Add(11, k);
    Pow2Word(k + 11);
    MulMono(0x7ff, imm, Pow2(k));
    MulMono(imm, 0, Pow2(k));
    SmallWrap(imm * Pow2(k));
    ShlBit(imm, k, k + 10);
    if imm >= 0x400 {
      AddTopBit(imm - 0x400, 10, 10);
    } else {
      HighBitsZero(imm, 10, 10);
    }
  }

  lemma SmallWrap(x: int)
    requires 0 <= x < W64
    ensures Wrap(x) == x
  {
  }

  lemma ExtendedImm(imm: imm11, k: nat)
    requires k <= 44 && imm >= 0x400
    ensures Or(Shl(imm, k), Shl(ALL_BITS, k + 11)) == Wrap((imm - 0x800) * Pow2(k))
  {
    ShiftedImm(imm, k);
    AllBitsShifted(k + 11);
    OrAdds(W64 - Pow2(k + 11), k + 11, imm * Pow2(k));
    NegativeImm(imm, Pow2(k));
  }

  lemma NegativeImm(imm: imm11, p: int)
    requires 1 <= p && imm * p < 0x800 * p <= W64 / 2
    ensures Wrap((imm - 0x800) * p) == W64 - 0x800 * p + imm * p
  {
    Distribute(imm, 0x800, p);
    MulMono(imm, 0, p);
    WrapNegative(imm * p - 0x800 * p);
  }

  /** The shift-and-mask immediate is the signed immediate times 2^(11 * factor). */
  lemma Imm11Meaning(imm: imm11, factor: imm3, signExtend: bool)
    ensures Imm11WithShiftFactor(imm, factor, signExtend) == ImmValue(imm, factor, signExtend)
  {
    if factor <= 4 {
      SmallFactors(imm, factor, signExtend, 11 * factor);
    } else {
      LargeFactors(imm, factor, signExtend);
    }
  }

  lemma SmallFactors(imm: imm11, factor: imm3, signExtend: bool, k: nat)
    requires factor <= 4 && k == 11 * factor
    ensures Imm11WithShiftFactor(imm, factor, signExtend) == ImmValue(imm, factor, signExtend)
  {
    SmallCode(imm, factor, signExtend, k);
    SmallValue(imm, factor, signExtend, k);
    SmallMeaning(imm, k);
  }

  lemma SmallCode(imm: imm11, factor: imm3, signExtend: bool, k: nat)
    requires factor <= 4 && k == 11 * factor
    ensures Imm11WithShiftFactor(imm, factor, signExtend) ==
            if signExtend && imm >= 0x400 then Or(Shl(imm, k), Shl(ALL_BITS, k + 11)) else Shl(imm, k)
  {
    ShiftedImm(imm, k);
  }

  lemma SmallValue(imm: imm11, factor: imm3, signExtend: bool, k: nat)
    requires factor <= 4 && k == 11 * factor
    ensures ImmValue(imm, factor, signExtend) ==
            if signExtend && imm >= 0x400 then Wrap((imm - 0x800) * Pow2(k)) else Wrap(imm * Pow2(k))
  {
  }

  lemma SmallMeaning(imm: imm11, k: nat)
    requires k <= 44
    ensures Shl(imm, k) == Wrap(imm * Pow2(k))
    ensures imm >= 0x400 ==> Or(Shl(imm, k), Shl(ALL_BITS, k + 11)) == Wrap((imm - 0x800) * Pow2(k))
  {
    ShiftedImm(imm, k);
    SmallWrap(imm * Pow2(k));
    if imm >= 0x400 { ExtendedImm(imm, k); }
  }

  lemma LargeFactors(imm: imm11, factor: imm3, signExtend: bool)
    requires factor >= 5
    ensures Imm11WithShiftFactor(imm, factor, signExtend) == ImmValue(imm, factor, signExtend)
  {
    assert Pow2(2) == 4 && Pow2(13) == 0x2000;
    if factor == 5 {
      assert Pow2(55) == 0x80_0000_0000_0000 by {
        Pow2Values();
        Pow2Add(32, 23);
        assert Pow2(23) == 0x80_0000 by { Pow2Add(22, 1); }
      }
    }
  }

  // ---------------------------------------------------------- flag formulas

  predicate AddCarry(l: bool, r: bool, s: bool) { (l && r) || ((l || r) && !s) }

  predicate AddOverflow(l: bool, r: bool, s: bool) { (l && r && !s) || (!l && !r && s) }

  predicate SubBorrow(l: bool, r: bool, s: bool) { (!l && r) || (s && r) || (s && !l) }

  predicate SubOverflow(l: bool, r: bool, s: bool) { (l && !r && !s) || (!l && r && s) }

  lemma ModRange(x: int, m: int)
    requires m > 0
    ensures 0 <= x % m < m
  {
  }

  /** A value less than two moduli away from zero is reduced in at most one turn. */
  lemma OneTurn(x: int, m: int)
    requires m > 0 && -m <= x < 2 * m
    ensures x % m == if x < 0 then x + m else if x >= m then x - m else x
  {
    DivisionUnique(x, m, if x < 0 then -1 else if x >= m then 1 else 0, if x < 0 then x + m else if x >= m then x - m
        else x);
  }

  /** The most-significant-bit formulas decide the arithmetic carry and overflow of an
      addition, with or without carry-in, for every even modulus. */
  lemma AddFormulas(m: int, x: int, y: int, cin: nat)
    requires m > 0 && m % 2 == 0 && 0 <= x < m && 0 <= y < m && cin <= 1
    ensures var out := AddMod(m, x, y, cin);
            var l, r, s := x >= m / 2, y >= m / 2, out.value >= m / 2;
            out.carry == AddCarry(l, r, s) && out.overflow == AddOverflow(l, r, s)
  {
    OneTurn(x + y + cin, m);
  }

  lemma SubFormulas(m: int, x: int, y: int, bin: nat)
    requires m > 0 && m % 2 == 0 && 0 <= x < m && 0 <= y < m && bin <= 1
    ensures var out := SubMod(m, x, y, bin);
            var l, r, s := x >= m / 2, y >= m / 2, out.value >= m / 2;
            out.carry == SubBorrow(l, r, s) && out.overflow == SubOverflow(l, r, s)
  {
    OneTurn(x - y - bin, m);
  }

  lemma LowOfPair(size: Size, a: u64, b: u64, c: int)
    ensures (a + b + c) % Modulus(size) == (a % Modulus(size) + b % Modulus(size) + c) % Modulus(size)
    ensures (a - b - c) % Modulus(size) == (a % Modulus(size) - b % Modulus(size) - c) % Modulus(size)
  {
    var m := Modulus(size);
    ModShift(a % m + b % m + c, a / m + b / m, m);
    ModShift(a % m - b % m - c, a / m - b / m, m);
    Distribute(a / m, -(b / m), m);
    Distribute(a / m, b / m, m);
  }

  lemma ModShift(x: int, k: int, m: int)
    requires m > 0
    ensures (x + k * m) % m == x % m
  {
    var q, r := x / m, x % m;
    assert x == q * m + r;
    Distribute(q, -k, m);
    DivisionUnique(x + k * m, m, q + k, r);
  }

  /** Wrapping to 64 bits loses nothing of a narrower part. */
  lemma WrapKeepsLow(x: int, size: Size)
    ensures Wrap(x) % Modulus(size) == x % Modulus(size)
  {
    var q := x / W64;
    match size
    case Byte => ModShift(Wrap(x), q * 0x100_0000_0000_0000, 0x100);
    case DoubleByte => ModShift(Wrap(x), q * 0x1_0000_0000_0000, 0x1_0000);
    case QuadByte => ModShift(Wrap(x), q * 0x1_0000_0000, 0x1_0000_0000);
    case Word =>
  }

  /** The low part of a 64-bit wrapping sum or difference of sign-extended operands. */
  lemma LowOfSum(size: Size, a: u64, b: u64, c: int)
    requires 0 <= c <= 1
    ensures Wrap(Wrap(a + b) + c) % Modulus(size) == (a % Modulus(size) + b % Modulus(size) + c) % Modulus(size)
    ensures Wrap(Wrap(a - b) - c) % Modulus(size) == (a % Modulus(size) - b % Modulus(size) - c) % Modulus(size)
  {
    WrapSumLow(a + b, c, size);
    WrapSumLow(a - b, -c, size);
    LowOfPair(size, a, b, c);
  }

  lemma WrapSumLow(x: int, c: int, size: Size)
    ensures Wrap(Wrap(x) + c) % Modulus(size) == (x + c) % Modulus(size)
  {
    WrapSum(x, c);
    WrapKeepsLow(x + c, size);
  }

  // ------------------------------------------------------- load immediate

  function LdiCode(was: u64, imm: u16, shift: imm6, clear: imm2): u64 {
    var mask := Shl(0xffff, shift);
    var shifted := Shl(imm, shift);
    var masked := And(was, Not(mask));
    var keep := match clear
                case 0 => ALL_BITS
                case 1 => CheckedShl(ALL_BITS, shift)
                case 2 => Not(CheckedShl(ALL_BITS, shift + 16))
                case _ => 0;
    Or(And(masked, keep), shifted)
  }

  lemma MergedBit(was: u64, mask: u64, keep: u64, shifted: u64, i: nat)
    requires i < 64
    ensures Bit(Or(And(And(was, Not(mask)), keep), shifted), i) ==
            ((Bit(was, i) && !Bit(mask, i) && Bit(keep, i)) || Bit(shifted, i))
  {
    OrBit(And(And(was, Not(mask)), keep), shifted, i);
    AndBit(And(was, Not(mask)), keep, i);
    AndBit(was, Not(mask), i);
    NotBit(mask, i);
  }

  lemma LdiCodeBit(was: u64, imm: u16, shift: imm6, clear: imm2, i: nat)
    requires i < 64
    ensures Bit(LdiCode(was, imm, shift, clear), i) ==
            if i < shift then clear % 2 == 0 && Bit(was, i)
            else if i < shift + 16 then Bit(imm, i - shift)
            else clear < 2 && Bit(was, i)
  {
    var mask, shifted := Shl(0xffff, shift), Shl(imm, shift);
    var masked := And(was, Not(mask));
    var keep: u64 := match clear
                     case 0 => ALL_BITS
                     case 1 => CheckedShl(ALL_BITS, shift)
                     case 2 => Not(CheckedShl(ALL_BITS, shift + 16))
                     case _ => 0;
    MergedBit(was, mask, keep, shifted, i);
    Low16Bit(shift, i);
    ShlBit(imm, shift, i);
    if i >= shift + 16 { HighBitsZero16(imm, i - shift); }
    KeepBit(shift, clear, keep, i);
  }

  lemma HighBitsZero16(imm: u16, i: nat)
    requires i >= 16
    ensures !Bit(imm, i)
  {
    Pow2Values();
    HighBitsZero(imm, 16, i);
  }

  lemma Low16Bit(shift: imm6, i: nat)
    requires i < 64
    ensures Bit(Shl(0xffff, shift), i) == (shift <= i < shift + 16)
  {
    Pow2Values();
    ShlBit(0xffff, shift, i);
    if shift <= i { MaskBit(16, i - shift); }
  }

  lemma KeepBit(shift: imm6, clear: imm2, keep: u64, i: nat)
    requires i < 64
    requires keep == match clear
                     case 0 => ALL_BITS
                     case 1 => CheckedShl(ALL_BITS, shift)
                     case 2 => Not(CheckedShl(ALL_BITS, shift + 16))
                     case _ => 0
    ensures Bit(keep, i) == ((clear == 0) || (clear == 1 && shift <= i) || (clear == 2 && i < shift + 16))
  {
    AllBitsBit(i);
    ShlBit(ALL_BITS, shift, i);
    if shift <= i { AllBitsBit(i - shift); }
    NotBit(CheckedShl(ALL_BITS, shift + 16), i);
    HighBitsZero(0, 0, i);
    if shift + 16 < 64 {
      ShlBit(ALL_BITS, shift + 16, i);
      if shift + 16 <= i { AllBitsBit(i - (shift + 16)); }
    }
  }

  lemma LdiValueBit(was: u64, imm: u16, shift: imm6, clear: imm2, i: nat)
    requires i < 64
    ensures Bit(LdiValue(was, imm, shift, clear), i) ==
            if i < shift then clear % 2 == 0 && Bit(was, i)
            else if i < shift + 16 then Bit(imm, i - shift)
            else clear < 2 && Bit(was, i)
  {
    var low := if clear % 2 == 1 then 0 else was % Pow2(shift);
    var mid := imm * Pow2(shift);
    MulBit(imm, shift, i);
    MulMono(imm, 0, Pow2(shift));
    MultipleOf(imm, Pow2(shift));
    SplitBit(mid, shift, low, i);
    ModBit(was, shift, i);
    HighBitsZero(0, 0, i);
    LowSum(imm, shift, low);
    var keepHigh := clear < 2 && shift <= 48;
    var high := if keepHigh then was / Pow2(shift + 16) * Pow2(shift + 16) else 0;
    if keepHigh {
      ShrinkDiv(was, Pow2(shift + 16));
      MulMono(was / Pow2(shift + 16), 0, Pow2(shift + 16));
      MultipleOf(was / Pow2(shift + 16), Pow2(shift + 16));
      MulBit(was / Pow2(shift + 16), shift + 16, i);
      if shift + 16 <= i { DivBit(was, shift + 16, i - (shift + 16)); }
    } else {
      DivideSelf(Pow2(shift + 16));
    }
    SplitBit(high, shift + 16, mid + low, i);
    WrapBit(high + mid + low, i);
    if i >= shift + 16 { HighBitsZero(mid + low, shift + 16, i); HighBitsZero16(imm, i - shift); }
  }

  lemma WrapBit(x: nat, i: nat)
    requires i < 64
    ensures Bit(Wrap(x), i) == Bit(x, i)
  {
    Pow2Values();
    ModBit(x, 64, i);
  }

  lemma MultipleOf(q: nat, d: int)
    requires d >= 1
    ensures 0 <= q * d && (q * d) % d == 0
  {
    MulMono(q, 0, d);
    DivisionUnique(q * d, d, q, 0);
  }

  lemma LowSum(imm: u16, shift: nat, low: nat)
    requires low < Pow2(shift)
    ensures imm * Pow2(shift) + low < Pow2(shift + 16)
  {
    Pow2Values();
    Pow2Add(16, shift);
    MulMono(0xffff, imm, Pow2(shift));
  }

  /** The masks of `ldi` replace the addressed 16 bits and clear what `clear` says. */
  lemma LdiMeaning(was: u64, imm: u16, shift: imm6, clear: imm2)
    ensures LdiCode(was, imm, shift, clear) == LdiValue(was, imm, shift, clear)
  {
    forall i | 0 <= i < 64 ensures Bit(LdiCode(was, imm, shift, clear), i) == Bit(LdiValue(was, imm, shift, clear), i) {
      LdiCodeBit(was, imm, shift, clear, i);
      LdiValueBit(was, imm, shift, clear, i);
    }
    SameWords(LdiCode(was, imm, shift, clear), LdiValue(was, imm, shift, clear));
  }

  // ----------------------------------------------- exception information

  lemma UserInfo(val: u16)
    ensures Or(3, Shl(val, 3)) == 3 + 8 * val
  {
    assert Pow2(3) == 8;
    var z: u64 := 8 * val;
    assert Shl(val, 3) == z;
    OrAdds(z, 3, 3);
  }

  lemma AccessInfo(rw: u64, byteSize: u16)
    requires rw == 0 || rw == 8
    ensures Or(Or(6, rw), Shl(byteSize, 4)) == 6 + rw + 16 * byteSize
  {
    assert Pow2(3) == 8 && Pow2(4) == 16;
    OrAdds(rw, 3, 6);
    var z: u64 := 16 * byteSize;
    assert Shl(byteSize, 4) == z;
    OrAdds(z, 4, 6 + rw);
  }

  function DataInfo(write: bool, byteSize: u16): (r: u64)
    ensures r == 6 + 8 * B(write) + 16 * byteSize
  {
    ShlOne(3);
    assert Pow2(3) == 8;
    var rw: u64 := if write then Shl(1, 3) else 0;
    AccessInfo(rw, byteSize);
    Or(Or(6, rw), Shl(byteSize, 4))
  }

  lemma InterruptFields(info: u64)
    ensures Or(7, Shl(info, 3)) == InterruptInfo(info)
  {
    assert Pow2(3) == 8;
    var z: u64 := Wrap(8 * info);
    assert Shl(info, 3) == z;
    OctalWrap(info);
    OrAdds(z, 3, 7);
  }

  lemma OctalWrap(info: u64)
    ensures Wrap(8 * info) % 8 == 0 && InterruptInfo(info) == 7 + Wrap(8 * info)
  {
  }

  /** The information word: its fields are or-ed together and do not overlap. */
  function InfoWord(e: Exception): (r: u64)
    ensures r == ExceptionInfo(e)
  {
    match e
    case Unknown => 0
    case InvalidInstruction => 1
    case Debug => 2
    case User(val) => UserWord(val)
    case InvalidOperation => 4
    case InstructionLoadError => 5
    case DataLoadError(_, write, byteSize) => DataInfo(write, byteSize)
    case Interrupt(info) => InterruptWord(info)
  }

  function UserWord(val: u16): (r: u64)
    ensures r == 3 + 8 * val
  {
    UserInfo(val);
    Or(3, Shl(val, 3))
  }

  function InterruptWord(info: u64): (r: u64)
    ensures r == InterruptInfo(info)
  {
    InterruptFields(info);
    Or(7, Shl(info, 3))
  }

  // ---------------------------------------------- results of wider computations

  lemma SetLowCongruent(was: u64, size: Size, v: int, w: int)
    requires v % Modulus(size) == w % Modulus(size)
    ensures SetLow(was, size, v) == SetLow(was, size, w)
  {
  }

  lemma SetLowWrapped(was: u64, size: Size, v: int)
    ensures SetLow(was, size, Wrap(v)) == SetLow(was, size, v)
  {
    WrapKeepsLow(v, size);
    SetLowCongruent(was, size, Wrap(v), v);
  }

  /** The Rust checks on 64-bit operands fail exactly when the narrow division panics. */
  lemma DivisionPanicsWhen(size: Size, a: u64, b: u64, signed: bool)
    ensures DivisionPanics(size, a, b, signed) ==
            (Machine.Operand(size, b, signed) == 0 ||
             (signed && Machine.Operand(size, a, signed) == -0x8000_0000_0000_0000
                 && Machine.Operand(size, b, signed) == -1))
  {
  }

  function BitwiseWord(op: LogicOp, x: u64, y: u64): u64 { Pow2Values(); Bitwise(op, x, y, 64) }

  function ShiftedRight(left: u64, right: u64, size: Size, signed: bool): (r: u64)
    requires left < Modulus(size)
    ensures r == ShrValue(size, left, right, signed)
  {
    SmallResidue(left, size);
    MsbIsSign(left, size);
    if right >= BitSize(size) then
      if signed && BitAsBool(left, MsbIndex(size)) then ALL_BITS else 0
    else if signed then Wrap(AsI64(left) / Pow2(right))
    else Shr(left, right)
  }

  lemma SmallResidue(x: u64, size: Size)
    requires x < Modulus(size)
    ensures x % Modulus(size) == x
  {
  }

  lemma RotateBound(a: nat, p: int, q: int)
    requires p >= 1 && q >= 1 && a < p * q
    ensures 0 <= a / p && a / p + (a % p) * q < p * q
  {
    ShrinkDiv(a, p);
    ModRange(a, p);
    var h := a / p;
    assert a == h * p + a % p;
    if h >= q { MulMono(h, q, p); assert false; }
    MulMono(p - 1, a % p, q);
    Distribute(p, 1, q);
  }

  lemma RotationFits(size: Size, a: u64, k: nat)
    requires a < Modulus(size)
    ensures Rotr(size, a, k) < Modulus(size)
  {
    var r := k % BitSize(size);
    ModulusIsPow2(size);
    Pow2Add(r, BitSize(size) - r);
    RotateBound(a, Pow2(r), Pow2(BitSize(size) - r));
  }

  lemma NegatedRegister(regs: Regs, dst: Reg, size: Size, x: u64)
    ensures SetReg(regs, dst, size, WrappingSub(0, GetSigned(x, size))) == SetReg(regs, dst, size, 0 - (x as int))
  {
    NegatedResult(size, x);
    SetLowCongruent(regs[dst], size, WrappingSub(0, GetSigned(x, size)), 0 - (x as int));
  }

  lemma NegatedFlags(f: Flags, size: Size, x: u64)
    ensures SetZs(f, size, WrappingSub(0, GetSigned(x, size))) == SetZs(f, size, 0 - (x as int))
  {
    NegatedResult(size, x);
  }

  lemma NegatedResult(size: Size, x: u64)
    ensures WrappingSub(0, GetSigned(x, size)) % Modulus(size) == (0 - (x as int)) % Modulus(size)
  {
    var y: int := Signed(x, Modulus(size));
    NegatedWrap(y);
    NegatedLow(GetSigned(x, size), y, size);
    NegatedSigned(x, size);
  }

  lemma NegatedLow(g: u64, y: int, size: Size)
    requires g == Wrap(y) && Wrap(0 - Wrap(y)) == Wrap(0 - y)
    ensures WrappingSub(0, g) % Modulus(size) == (0 - y) % Modulus(size)
  {
    WrapKeepsLow(0 - y, size);
  }

  lemma NegatedWrap(y: int)
    ensures Wrap(0 - Wrap(y)) == Wrap(0 - y)
  {
    ModShift(0 - y, y / W64, W64);
  }

  lemma NegatedSigned(x: u64, size: Size)
    ensures (0 - Signed(x, Modulus(size))) % Modulus(size) == (0 - (x as int)) % Modulus(size)
  {
    var m := Modulus(size);
    var y := Signed(x, m);
    var k := if x % m < m / 2 then x / m else x / m + 1;
    Distribute(x / m, -1, m);
    assert x == y + k * m;
    ModShift(0 - y, -k, m);
  }

  /** Reversing the bytes of a register only looks at its low part, and fits there. */
  lemma ReversedLow(x: u64, size: Size)
    ensures Reversed(x % Modulus(size), ByteSize(size)) == Reversed(x, ByteSize(size)) < Modulus(size)
  {
    ModulusIsPow2(size);
    ReversedOfLow(x, ByteSize(size));
    ReversedBound(x, ByteSize(size));
  }

  lemma {:induction false} ReversedOfLow(x: nat, n: nat)
    ensures Reversed(x % Pow2(8 * n), n) == Reversed(x, n)
    decreases n
  {
    if n > 0 {
      ModBytes(x, n - 1);
      ReversedOfLow(x / 0x100, n - 1);
      LowByteFirst(x % Pow2(8 * n), x % 0x100, x / 0x100 % Pow2(8 * (n - 1)));
    }
  }

  lemma LowByteFirst(v: int, b: int, h: int)
    requires v == b + 0x100 * h && 0 <= b < 0x100
    ensures v % 0x100 == b && v / 0x100 == h
  {
  }

  lemma {:induction false} ReversedBound(x: nat, n: nat)
    ensures Reversed(x, n) < Pow2(8 * n)
    decreases n
  {
    if n > 0 {
      ReversedBound(x / 0x100, n - 1);
      Pow2Add(8, 8 * (n - 1));
      Pow2Values();
      MulMono(0xff, x % 0x100, Pow2(8 * (n - 1)));
    }
  }
}
