/** The machine registers by their numbers: who may read and write which, and what they hold. */
module Privileged {
  import opened Bits
  import opened Memory
  import opened Isa
  import opened Machine
  import D = Decoder

  // --------------------------------------------------------------- flags

  /** The flags as a word: C, Z, O, S, exceptions enabled and PL1 from bit 0 up. */
  predicate FlagBits(f: Flags, w: nat) {
    && w < 64 && Bit(w, 0) == f.carry && Bit(w, 1) == f.zero && Bit(w, 2) == f.overflow
    && Bit(w, 3) == f.sign && Bit(w, 4) == f.enabled && Bit(w, 5) == f.pl1
  }

  lemma LastBit(b: bool, rest: nat, i: nat)
    ensures Bit(B(b) + 2 * rest, 0) == b && Bit(B(b) + 2 * rest, i + 1) == Bit(rest, i)
  {
    BitOfHalf(B(b) + 2 * rest, i);
  }

  lemma ThreeBits(a: bool, b: bool, c: bool, rest: nat, i: nat)
    ensures var w := B(a) + 2 * B(b) + 4 * B(c) + 8 * rest;
            Bit(w, 0) == a && Bit(w, 1) == b && Bit(w, 2) == c && Bit(w, i + 3) == Bit(rest, i)
  {
    var w2 := B(c) + 2 * rest;
    var w1 := B(b) + 2 * w2;
    LastBit(c, rest, i);
    LastBit(b, w2, 0);
    LastBit(b, w2, i + 1);
    LastBit(a, w1, 0);
    LastBit(a, w1, 1);
    LastBit(a, w1, i + 2);
  }

  lemma WordOfFlags(f: Flags)
    ensures FlagBits(f, FlagsWord(f))
  {
    SixBits(f.carry, f.zero, f.overflow, f.sign, f.enabled, f.pl1, FlagsWord(f));
  }

  lemma SixBits(a: bool, b: bool, c: bool, d: bool, e: bool, f: bool, w: nat)
    requires w == B(a) + 2 * B(b) + 4 * B(c) + 8 * B(d) + 16 * B(e) + 32 * B(f)
    ensures Bit(w, 0) == a && Bit(w, 1) == b && Bit(w, 2) == c && Bit(w, 3) == d && Bit(w, 4) == e && Bit(w, 5) == f
  {
    var high := B(d) + 2 * B(e) + 4 * B(f) + 8 * 0;
    assert w == B(a) + 2 * B(b) + 4 * B(c) + 8 * high;
    ThreeBits(d, e, f, 0, 0);
    ThreeBits(a, b, c, high, 0);
    ThreeBits(a, b, c, high, 1);
    ThreeBits(a, b, c, high, 2);
  }

  // --------------------------------------------------------------- reading

  /** v is what machine register `id` holds. */
  predicate Holds(s: State, id: imm22, v: u64) {
    match id
    case 0 => FlagBits(s.flags, v)
    case 1 => v == s.elr
    case 2 => v == s.esp
    case 3 => FlagBits(s.eflags, v)
    case 4 => v == s.einfo
    case 5 => v == s.eaddr
    case 6 => v == s.evtable
    case 7 => v == s.ectableAddr
    case _ => false
  }

  lemma LdmIs(s: State, d: Reg, id: imm22) returns (v: u64)
    ensures ExecLdm(s, d, id) == if id == 0 || (id <= 7 && !s.flags.pl1) then Done(s.(regs := s.regs[d := v]))
            else Raised(TakeException(s, InvalidOperation))
    ensures id <= 7 ==> Holds(s, id, v)
  {
    v := if MRegOf(id).Some? then ReadMReg(s, MRegOf(id).value) else 0;
    WordOfFlags(s.flags);
    WordOfFlags(s.eflags);
  }

  /** `ldm` delivers each of the eight registers at PL0 and only the flags at PL1; everything else,
      and the console at either level, is an invalid operation. */
  lemma LdmReads(s: State, d: Reg, id: imm22) returns (v: u64)
    ensures Exec(s, Ldm(d, id)) == if id == 0 || (id <= 7 && !s.flags.pl1) then Done(s.(regs := s.regs[d := v]))
            else Raised(TakeException(s, InvalidOperation))
    ensures id <= 7 ==> Holds(s, id, v)
  {
    v := LdmIs(s, d, id);
  }

  // --------------------------------------------------------------- writing

  /** Entry i of a half of the table: three words, flags, stack pointer and stack size. */
  predicate EntryAt(m: Memory, a: nat, e: Entry) {
    && Fits(m, a, 24) && e.flags == ReadLe(m, a, 8)
    && e.stackPointer == ReadLe(m, a + 8, 8) && e.stackSize == ReadLe(m, a + 16, 8)
  }

  /** The table at address a: the eight entries for PL0 and then those for PL1. */
  ghost predicate TableAt(m: Memory, a: nat, t: Ectable) {
    forall i :: 0 <= i < 8 ==> EntryAt(m, a + 24 * i, t.pl0[i]) && EntryAt(m, a + 192 + 24 * i, t.pl1[i])
  }

  lemma TableRead(m: Memory, a: nat)
    requires Fits(m, a, 384)
    ensures TableAt(m, a, ReadEctable(m, a))
  {
  }

  /** No entry has a flag other than that of its own stack. */
  ghost predicate OnlyStackFlags(t: Ectable) {
    forall i :: 0 <= i < 8 ==> t.pl0[i].flags < 2 && t.pl1[i].flags < 2
  }

  /** What storing v in machine register `id` makes of s, if it is allowed at its level and fits. */
  ghost predicate Stores(s: State, id: imm22, v: u64, t: State) {
    if id == 0xdead1 then t == s.(console := s.console + [v % 0x100])
    else !s.flags.pl1 && match id
      case 0 => FlagBits(t.flags, v) && t == s.(flags := t.flags)
      case 1 => v % 4 == 0 && t == s.(elr := v)
      case 2 => t == s.(esp := v)
      case 3 => FlagBits(t.eflags, v) && t == s.(eflags := t.eflags)
      case 6 => v % 4 == 0 && t == s.(evtable := v)
      case 7 => TableAt(s.mem, v, t.ectable) && OnlyStackFlags(t.ectable)
          && t == s.(ectableAddr := v, ectable := t.ectable)
      case _ => false
  }

  /** The exception of a store that is not allowed: an ectable outside memory is a data fault. */
  function Refusal(s: State, id: imm22, v: u64): Exception {
    if id == 7 && !s.flags.pl1 && v + 384 > |s.mem| then DataLoadError(v, false, 384) else InvalidOperation
  }

  lemma SameFlags(f: Flags, w: nat)
    requires FlagBits(f, w)
    ensures f == FlagsOf(w)
  {
  }

  lemma SixBitsOnly(v: nat)
    ensures v < 64 <==> FlagBits(FlagsOf(v), v)
  {
  }

  lemma SameTable(m: Memory, a: nat, t: Ectable)
    requires Fits(m, a, 384) && TableAt(m, a, t)
    ensures t == ReadEctable(m, a)
  {
    TableRead(m, a);
    var r := ReadEctable(m, a);
    forall i | 0 <= i < 8 ensures t.pl0[i] == r.pl0[i] && t.pl1[i] == r.pl1[i] {
      assert EntryAt(m, a + 24 * i, t.pl0[i]) && EntryAt(m, a + 192 + 24 * i, t.pl1[i]);
      assert EntryAt(m, a + 24 * i, r.pl0[i]) && EntryAt(m, a + 192 + 24 * i, r.pl1[i]);
    }
    assert t.pl0 == r.pl0 && t.pl1 == r.pl1;
  }

  lemma TableInMemory(m: Memory, a: nat, t: Ectable)
    requires TableAt(m, a, t)
    ensures Fits(m, a, 384)
  {
    assert EntryAt(m, a + 192 + 24 * 7, t.pl1[7]);
  }

  lemma EctableStores(s: State, v: u64, t: State)
    ensures StoreEctable(s, v) == Done(t) <==>
            TableAt(s.mem, v, t.ectable) && OnlyStackFlags(t.ectable) && t == s.(ectableAddr := v, ectable := t.ectable)
    ensures !StoreEctable(s, v).Done? ==>
            StoreEctable(s, v) == Raised(TakeException(s, if v + 384 > |s.mem| then DataLoadError(v, false, 384)
                                                          else InvalidOperation))
  {
    if TableAt(s.mem, v, t.ectable) { TableInMemory(s.mem, v, t.ectable); }
    if Fits(s.mem, v, 384) {
      TableRead(s.mem, v);
      if TableAt(s.mem, v, t.ectable) { SameTable(s.mem, v, t.ectable); }
    }
  }

  lemma StmIs(s: State, id: imm22, src: Reg, t: State)
    ensures ExecStm(s, id, src) == Done(t) <==> Stores(s, id, s.regs[src], t)
    ensures ExecStm(s, id, src).Done?
            || ExecStm(s, id, src) == Raised(TakeException(s, Refusal(s, id, s.regs[src])))
  {
    var v := s.regs[src];
    EctableStores(s, v, t);
    SixBitsOnly(v);
    if FlagBits(t.flags, v) { SameFlags(t.flags, v); }
    if FlagBits(t.eflags, v) { SameFlags(t.eflags, v); }
  }

  /** `stm` stores to the console at either level, and at PL0 to six registers: flags of six bits,
      aligned addresses, any esp, and a table that is in memory and asks for nothing but stacks.
      Anything else is refused and changes nothing but what taking the exception does. */
  lemma StmStores(s: State, id: imm22, src: Reg, t: State)
    ensures Exec(s, Stm(id, src)) == Done(t) <==> Stores(s, id, s.regs[src], t)
    ensures Exec(s, Stm(id, src)).Done?
            || Exec(s, Stm(id, src)) == Raised(TakeException(s, Refusal(s, id, s.regs[src])))
  {
    StmIs(s, id, src, t);
  }

  // ------------------------------------------------- codes in instructions

  /** The condition codes follow the flag word: the even code 2 k tests bit k of it, code 8 whether S
      and O differ, and the odd code after each the contrary. */
  lemma ConditionCodes(f: Flags, w: u64, k: nat)
    requires FlagBits(f, w) && k < 5
    ensures var c, not := D.ToCond(2 * k), D.ToCond(2 * k + 1);
            && c.Good? && not.Good? && TestFlags(not.value, f) == !TestFlags(c.value, f)
            && TestFlags(c.value, f) == if k == 4 then Bit(w, 3) != Bit(w, 2) else Bit(w, k)
  {
    match k
    case 0 =>
    case 1 =>
    case 2 =>
    case 3 =>
    case _ =>
  }

  /** Size code k stands for 2^k bytes. */
  lemma SizeCodes(k: u64)
    requires k < 4
    ensures ByteSize(D.ToSize(k)) == Pow2(k)
  {
    match k
    case 0 =>
    case 1 =>
    case 2 => assert Pow2(2) == 4;
    case _ => assert Pow2(3) == 8;
  }
}
