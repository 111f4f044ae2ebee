/** How programs build 64-bit constants out of immediates. */
module Constants {
  import opened Bits
  import opened Isa
  import opened Machine

  /** The k-th 16-bit field of a word. */
  function Field(x: u64, k: nat): u16
    requires k < 4
  {
    match k
    case 0 => x % 0x1_0000
    case 1 => x / 0x1_0000 % 0x1_0000
    case 2 => x / 0x1_0000_0000 % 0x1_0000
    case _ => x / 0x1_0000_0000_0000 % 0x1_0000
  }

  lemma FieldsDetermine(x: u64)
    ensures x == Field(x, 0) + 0x1_0000 * Field(x, 1) + 0x1_0000_0000 * Field(x, 2) + 0x1_0000_0000_0000 * Field(x, 3)
  {
    assert x == x % 0x1_0000 + 0x1_0000 * (x / 0x1_0000);
    assert x / 0x1_0000 == x / 0x1_0000 % 0x1_0000 + 0x1_0000 * (x / 0x1_0000_0000);
    assert x / 0x1_0000_0000 == x / 0x1_0000_0000 % 0x1_0000 + 0x1_0000 * (x / 0x1_0000_0000_0000);
    assert x / 0x1_0000_0000_0000 == x / 0x1_0000_0000_0000 % 0x1_0000;
  }

  /** Loading a field at its shift, with nothing cleared, as arithmetic. */
  function Load(was: u64, k: nat, imm: u16): u64
    requires k < 4
  {
    LdiValue(was, imm, 16 * k, 0)
  }

  lemma Powers()
    ensures Pow2(0) == 1 && Pow2(16) == 0x1_0000 && Pow2(32) == 0x1_0000_0000 && Pow2(48) == 0x1_0000_0000_0000
            && Pow2(64) == W64
  {
    Pow2Values();
    assert Pow2(40) == 0x100_0000_0000;
    assert Pow2(48) == 0x1_0000_0000_0000;
  }

  lemma Load0(was: u64, imm: u16)
    ensures Load(was, 0, imm) == was / 0x1_0000 * 0x1_0000 + imm * 1 + was % 1
  {
    assert Pow2(0) == 1 && Pow2(16) == 0x1_0000 by { Powers(); }
    assert Wrap(was / 0x1_0000 * 0x1_0000 + imm * 1 + was % 1) == was / 0x1_0000 * 0x1_0000 + imm * 1 + was % 1;
  }

  lemma Load1(was: u64, imm: u16)
    ensures Load(was, 1, imm) == was / 0x1_0000_0000 * 0x1_0000_0000 + imm * 0x1_0000 + was % 0x1_0000
  {
    assert Pow2(16) == 0x1_0000 && Pow2(32) == 0x1_0000_0000 by { Powers(); }
    assert Wrap(was / 0x1_0000_0000 * 0x1_0000_0000 + imm * 0x1_0000 + was % 0x1_0000)
        == was / 0x1_0000_0000 * 0x1_0000_0000 + imm * 0x1_0000 + was % 0x1_0000;
  }

  lemma Load2(was: u64, imm: u16)
    ensures Load(was, 2, imm) ==
            was / 0x1_0000_0000_0000 * 0x1_0000_0000_0000 + imm * 0x1_0000_0000 + was % 0x1_0000_0000
  {
    assert Pow2(32) == 0x1_0000_0000 && Pow2(48) == 0x1_0000_0000_0000 by { Powers(); }
    assert Wrap(was / 0x1_0000_0000_0000 * 0x1_0000_0000_0000 + imm * 0x1_0000_0000 + was % 0x1_0000_0000)
        == was / 0x1_0000_0000_0000 * 0x1_0000_0000_0000 + imm * 0x1_0000_0000 + was % 0x1_0000_0000;
  }

  lemma Load3(was: u64, imm: u16)
    ensures Load(was, 3, imm) == was / W64 * W64 + imm * 0x1_0000_0000_0000 + was % 0x1_0000_0000_0000
  {
    assert Pow2(48) == 0x1_0000_0000_0000 && Pow2(64) == W64 by { Powers(); }
    assert Wrap(was / W64 * W64 + imm * 0x1_0000_0000_0000 + was % 0x1_0000_0000_0000)
        == was / W64 * W64 + imm * 0x1_0000_0000_0000 + was % 0x1_0000_0000_0000;
  }

  /** A word of four 16-bit digits. */
  function Digits(a: u16, b: u16, c: u16, d: u16): u64 {
    a + 0x1_0000 * b + 0x1_0000_0000 * c + 0x1_0000_0000_0000 * d
  }

  /** The lowest digit of a number in base 2^16, and the rest. */
  lemma LowDigit(a: u16, rest: nat)
    ensures (a + 0x1_0000 * rest) % 0x1_0000 == a && (a + 0x1_0000 * rest) / 0x1_0000 == rest
  {
    DivisionUnique(a + 0x1_0000 * rest, 0x1_0000, rest, a);
  }

  lemma FieldsOf(a: u16, b: u16, c: u16, d: u16)
    ensures var x := Digits(a, b, c, d);
            Field(x, 0) == a && Field(x, 1) == b && Field(x, 2) == c && Field(x, 3) == d
  {
    var x := Digits(a, b, c, d);
    var x3: nat := d;
    var x2: nat := c + 0x1_0000 * x3;
    var x1: nat := b + 0x1_0000 * x2;
    LowDigit(c, x3);
    LowDigit(b, x2);
    LowDigit(a, x1);
    HighDivisions(x);
    LowDigit(d, 0);
  }

  lemma HighDivisions(x: nat)
    ensures x / 0x1_0000_0000 == x / 0x1_0000 / 0x1_0000
    ensures x / 0x1_0000_0000_0000 == x / 0x1_0000 / 0x1_0000 / 0x1_0000
  {
  }

  lemma SplitDigits(x: u64)
    ensures x == Digits(Field(x, 0), Field(x, 1), Field(x, 2), Field(x, 3))
    ensures x % 0x1_0000 == Field(x, 0)
    ensures x % 0x1_0000_0000 == Field(x, 0) + 0x1_0000 * Field(x, 1)
    ensures x % 0x1_0000_0000_0000 == Field(x, 0) + 0x1_0000 * Field(x, 1) + 0x1_0000_0000 * Field(x, 2)
    ensures x / W64 == 0
  {
    FieldsDetermine(x);
    var a: int, b: int, c: int, d: int := Field(x, 0), Field(x, 1), Field(x, 2), Field(x, 3);
    DivisionUnique(x, 0x1_0000_0000, c + 0x1_0000 * d, a + 0x1_0000 * b);
    DivisionUnique(x, 0x1_0000_0000_0000, d, a + 0x1_0000 * b + 0x1_0000_0000 * c);
    DivisionUnique(x, W64, 0, x);
  }

  lemma LoadDigits(was: u64, k: nat, imm: u16)
    requires k < 4
    ensures Load(was, k, imm) ==
            Digits(if k == 0 then imm else Field(was, 0), if k == 1 then imm else Field(was, 1),
                   if k == 2 then imm else Field(was, 2), if k == 3 then imm else Field(was, 3))
  {
    SplitDigits(was);
    match k
    case 0 => Load0(was, imm);
    case 1 => Load1(was, imm);
    case 2 => Load2(was, imm);
    case _ => Load3(was, imm);
  }

  /** A load replaces one field and leaves the others. */
  lemma LoadField(was: u64, k: nat, imm: u16, j: nat)
    requires k < 4 && j < 4
    ensures Field(Load(was, k, imm), j) == if j == k then imm else Field(was, j)
  {
    LoadDigits(was, k, imm);
    FieldsOf(if k == 0 then imm else Field(was, 0), if k == 1 then imm else Field(was, 1),
             if k == 2 then imm else Field(was, 2), if k == 3 then imm else Field(was, 3));
  }

  // -------------------------------------------------- any order of loads

  /** The fields of v loaded into register d in the order ks, each by one `ldi`. */
  function LoadAll(s: State, d: Reg, v: u64, ks: seq<nat>): State
    requires forall i :: 0 <= i < |ks| ==> ks[i] < 4
    decreases |ks|
  {
    if ks == [] then s else LoadAll(ExecLdi(s, d, Field(v, ks[0]), 16 * ks[0], 0).s, d, v, ks[1..])
  }

  lemma {:induction false} LoadAllFields(s: State, d: Reg, v: u64, ks: seq<nat>, j: nat)
    requires (forall i :: 0 <= i < |ks| ==> ks[i] < 4) && j < 4
    ensures Field(LoadAll(s, d, v, ks).regs[d], j) == if j in ks then Field(v, j) else Field(s.regs[d], j)
    ensures LoadAll(s, d, v, ks) == s.(regs := s.regs[d := LoadAll(s, d, v, ks).regs[d]])
    decreases |ks|
  {
    if ks != [] {
      var t := ExecLdi(s, d, Field(v, ks[0]), 16 * ks[0], 0).s;
      LoadField(s.regs[d], ks[0], Field(v, ks[0]), j);
      LoadAllFields(t, d, v, ks[1..], j);
    }
  }

  /** Any 64-bit constant, from any content of the register: `ldi` at the shifts 0, 16, 32 and 48
      in any order, with or without repetitions. */
  lemma FourLoads(s: State, d: Reg, v: u64, ks: seq<nat>)
    requires (forall i :: 0 <= i < |ks| ==> ks[i] < 4) && forall j: nat :: j < 4 ==> j in ks
    ensures LoadAll(s, d, v, ks) == s.(regs := s.regs[d := v])
  {
    LoadAllFields(s, d, v, ks, 0);
    LoadAllFields(s, d, v, ks, 1);
    LoadAllFields(s, d, v, ks, 2);
    LoadAllFields(s, d, v, ks, 3);
    FieldsDetermine(LoadAll(s, d, v, ks).regs[d]);
    FieldsDetermine(v);
  }

  // ------------------------------------------------ or-ing six immediates

  /** The 11 bits of v from bit 11 k upward. */
  function Slice(v: u64, k: nat): imm11
    requires k < 6
  {
    Pow2Values();
    ShrinkDiv(v, Pow2(11 * k));
    v / Pow2(11 * k) % 0x800
  }

  lemma SliceBit(v: u64, k: nat, i: nat)
    requires k < 6
    ensures Bit(Slice(v, k), i) == (i < 11 && Bit(v, 11 * k + i))
  {
    Pow2Values();
    ShrinkDiv(v, Pow2(11 * k));
    ModBit(v / Pow2(11 * k), 11, i);
    DivBit(v, 11 * k, i);
  }

  /** An unsigned immediate at shift factor k holds its bits in their place, cut at bit 64. */
  lemma ImmediateBit(imm: imm11, k: nat, i: nat)
    requires k < 6 && i < 64
    ensures Bit(ImmValue(imm, k, false), i) == (11 * k <= i && Bit(imm, i - 11 * k))
  {
    Pow2Values();
    MulBit(imm, 11 * k, i);
    ModBit(imm * Pow2(11 * k), 64, i);
  }

  /** `or d, d, imm, k` for k from 0 below n, with the slices of v. */
  function OrAll(s: State, d: Reg, v: u64, n: nat): State
    requires n <= 6
  {
    if n == 0 then s
    else ExecLogic(OrAll(s, d, v, n - 1), OR, Word, Some(d), d, AluImm(Slice(v, n - 1), n - 1, false), false).s
  }

  lemma OrStep(s: State, d: Reg, imm: imm11, k: nat)
    requires k < 6
    ensures ExecLogic(s, OR, Word, Some(d), d, AluImm(imm, k, false), false)
            == Done(s.(regs := s.regs[d := Or(s.regs[d], ImmValue(imm, k, false))]))
  {
    Small64(s.regs[d]);
    Small64(Or(s.regs[d], ImmValue(imm, k, false)));
  }

  lemma {:induction false} OrAllBits(s: State, d: Reg, v: u64, n: nat, i: nat)
    requires n <= 6 && i < 64 && s.regs[d] == 0
    ensures Bit(OrAll(s, d, v, n).regs[d], i) == (i < 11 * n && Bit(v, i))
    ensures OrAll(s, d, v, n) == s.(regs := s.regs[d := OrAll(s, d, v, n).regs[d]])
  {
    if n == 0 {
      HighBitsZero(0, 0, i);
    } else {
      OrAllBits(s, d, v, n - 1, i);
      var t := OrAll(s, d, v, n - 1);
      OrStep(t, d, Slice(v, n - 1), n - 1);
      OrBit(t.regs[d], ImmValue(Slice(v, n - 1), n - 1, false), i);
      ImmediateBit(Slice(v, n - 1), n - 1, i);
      if 11 * (n - 1) <= i { SliceBit(v, n - 1, i - 11 * (n - 1)); }
    }
  }

  /** Any 64-bit constant, from a zero register: six `or`s with the shift factors 0 to 5. */
  lemma SixOrs(s: State, d: Reg, v: u64)
    requires s.regs[d] == 0
    ensures OrAll(s, d, v, 6) == s.(regs := s.regs[d := v])
  {
    var t := OrAll(s, d, v, 6);
    forall i | 0 <= i < 64 ensures Bit(t.regs[d], i) == Bit(v, i) { OrAllBits(s, d, v, 6, i); }
    SameWords(t.regs[d], v);
    OrAllBits(s, d, v, 6, 0);
  }
}
