/** What moves between registers and memory, byte by byte, and where control goes. */
module Transfers {
  import opened Bits
  import opened Memory
  import opened Isa
  import opened Machine
  import opened Products
  import opened BitMoves
  import opened Shifts
  import O = Operations
  import U = Util

  // ------------------------------------------------------ bytes in memory

  /** The n bytes at address a of m are the low bytes of v, the lowest first. */
  predicate LittleEndian(m: seq<byte>, a: nat, n: nat, v: nat) {
    Fits(m, a, n) && forall j :: 0 <= j < n ==> m[a + j] == ByteAt(v, j)
  }

  lemma {:induction false} ReadIsLittleEndian(m: seq<byte>, a: nat, n: nat, j: nat)
    requires Fits(m, a, n) && j < n
    ensures ByteAt(ReadLe(m, a, n), j) == m[a + j]
    decreases n
  {
    var rest := ReadLe(m, a + 1, n - 1);
    U.LowByteFirst(m[a] + 0x100 * rest, m[a], rest);
    if j == 0 {
      FirstByte(ReadLe(m, a, n));
    } else {
      ReadIsLittleEndian(m, a + 1, n - 1, j - 1);
      HigherByte(ReadLe(m, a, n), j - 1);
    }
  }

  lemma {:induction false} WriteIsLittleEndian(m: seq<byte>, a: nat, n: nat, v: nat, j: nat)
    requires Fits(m, a, n) && j < n
    ensures WriteLe(m, a, n, v)[a + j] == ByteAt(v, j)
    decreases n
  {
    var m1 := m[a := v % 0x100];
    WriteFrame(m1, a + 1, n - 1, v / 0x100);
    if j == 0 {
      FirstByte(v);
    } else {
      WriteIsLittleEndian(m1, a + 1, n - 1, v / 0x100, j - 1);
      HigherByte(v, j - 1);
    }
  }

  lemma Stored(m: Memory, a: nat, n: nat, v: nat)
    requires Fits(m, a, n)
    ensures LittleEndian(WriteLe(m, a, n, v), a, n, v) && SameOutside(m, WriteLe(m, a, n, v), a, a + n)
  {
    WriteFrame(m, a, n, v);
    forall j | 0 <= j < n ensures WriteLe(m, a, n, v)[a + j] == ByteAt(v, j) { WriteIsLittleEndian(m, a, n, v, j); }
  }

  lemma Loaded(m: Memory, a: nat, size: Size, was: u64)
    requires Fits(m, a, ByteSize(size))
    ensures LittleEndian(m, a, ByteSize(size), SetLow(was, size, ReadLe(m, a, ByteSize(size))))
    ensures UpperKept(was, SetLow(was, size, ReadLe(m, a, ByteSize(size))), size)
  {
    var v := ReadLe(m, a, ByteSize(size));
    WordRange(m, a);
    var r := SetLow(was, size, v);
    SetLowParts(was, size, v);
    forall j | 0 <= j < ByteSize(size) ensures m[a + j] == ByteAt(r, j) {
      ReadIsLittleEndian(m, a, ByteSize(size), j);
      O.LowBytes(r, size, j);
      O.LowBytes(v, size, j);
    }
  }

  // ------------------------------------------------------ loads and stores

  /** `lds`: the low part of the destination is the bytes at the address, the lowest first. */
  lemma LdsMeans(s: State, size: Size, d: Reg, addr: Reg) returns (t: State)
    requires Fits(s.mem, s.regs[addr], ByteSize(size))
    ensures Exec(s, Lds(size, d, addr)) == Done(t)
    ensures t == s.(regs := s.regs[d := t.regs[d]]) && UpperKept(s.regs[d], t.regs[d], size)
    ensures LittleEndian(s.mem, s.regs[addr], ByteSize(size), t.regs[d])
  {
    t := ExecLds(s, size, d, addr).s;
    Loaded(s.mem, s.regs[addr], size, s.regs[d]);
  }

  /** `ldp`: the first destination gets what is at the address and the second what follows it; where
      they are one register the second value stays. */
  lemma LdpMeans(s: State, size: Size, d1: Reg, d2: Reg, addr: Reg) returns (t: State)
    requires Fits(s.mem, s.regs[addr], 2 * ByteSize(size))
    ensures Exec(s, Ldp(size, d1, d2, addr)) == Done(t)
    ensures t == s.(regs := s.regs[d1 := t.regs[d1]][d2 := t.regs[d2]])
    ensures d1 != d2 ==> LittleEndian(s.mem, s.regs[addr], ByteSize(size), t.regs[d1])
    ensures LittleEndian(s.mem, s.regs[addr] + ByteSize(size), ByteSize(size), t.regs[d2])
    ensures UpperKept(s.regs[d1], t.regs[d1], size) && UpperKept(s.regs[d2], t.regs[d2], size)
  {
    var n, a := ByteSize(size), s.regs[addr];
    t := ExecLdp(s, size, d1, d2, addr).s;
    Loaded(s.mem, a, size, s.regs[d1]);
    Loaded(s.mem, a + n, size, SetReg(s.regs, d1, size, ReadLe(s.mem, a, n))[d2]);
  }

  /** `sts`: the bytes at the address become the low part of the source, the lowest first. */
  lemma StsMeans(s: State, size: Size, addr: Reg, src: Reg) returns (t: State)
    requires Fits(s.mem, s.regs[addr], ByteSize(size))
    ensures Exec(s, Sts(size, addr, src)) == Done(t) && t == s.(mem := t.mem)
    ensures LittleEndian(t.mem, s.regs[addr], ByteSize(size), s.regs[src])
    ensures SameOutside(s.mem, t.mem, s.regs[addr], s.regs[addr] + ByteSize(size))
  {
    t := ExecSts(s, size, addr, src).s;
    Stored(s.mem, s.regs[addr], ByteSize(size), s.regs[src]);
  }

  /** An access outside memory is an exception that names the address, the direction and the size. */
  lemma AccessFaults(s: State, size: Size, d1: Reg, d2: Reg, addr: Reg)
    ensures var a, n := s.regs[addr], ByteSize(size);
            && (a + n > |s.mem| ==>
                  Exec(s, Lds(size, d1, addr)) == Raised(TakeException(s, DataLoadError(a, false, n)))
                  && Exec(s, Sts(size, addr, d1)) == Raised(TakeException(s, DataLoadError(a, true, n)))
                  && Exec(s, Stp(size, addr, d1, d2)) == Raised(TakeException(s, DataLoadError(a, true, n))))
            && (a + 2 * n > |s.mem| ==>
                  Exec(s, Ldp(size, d1, d2, addr)) == Raised(TakeException(s, DataLoadError(a, false, 2 * n))))
            && (a + n <= |s.mem| ==> Exec(s, Stp(size, addr, d1, d2)) == Abort)
  {
  }

  /** `copy`: only the low part moves. */
  lemma CopyMeans(s: State, size: Size, d: Reg, src: Reg) returns (t: State)
    ensures Exec(s, Copy(size, d, src)) == Done(t) && t == s.(regs := s.regs[d := t.regs[d]])
    ensures t.regs[d] % Modulus(size) == s.regs[src] % Modulus(size) && UpperKept(s.regs[d], t.regs[d], size)
  {
    t := ExecCopy(s, size, d, src).s;
    SetLowParts(s.regs[d], size, s.regs[src]);
  }

  /** `ldi`: sixteen bits of the destination are the immediate's; below them it is cleared by clear
      bit 0 and above them by clear bit 1, and otherwise kept. */
  lemma LdiMeans(s: State, d: Reg, imm: u16, shift: imm6, clear: imm2) returns (t: State)
    ensures Exec(s, Ldi(d, imm, shift, clear)) == Done(t) && t == s.(regs := s.regs[d := t.regs[d]])
    ensures forall i :: 0 <= i < 64 ==>
              Bit(t.regs[d], i) == if i < shift then !Bit(clear, 0) && Bit(s.regs[d], i)
                                   else if i < shift + 16 then Bit(imm, i - shift)
                                   else !Bit(clear, 1) && Bit(s.regs[d], i)
  {
    t := ExecLdi(s, d, imm, shift, clear).s;
    forall i | 0 <= i < 64
      ensures Bit(t.regs[d], i) == if i < shift then !Bit(clear, 0) && Bit(s.regs[d], i)
                                   else if i < shift + 16 then Bit(imm, i - shift)
                                   else !Bit(clear, 1) && Bit(s.regs[d], i)
    {
      U.LdiValueBit(s.regs[d], imm, shift, clear, i);
    }
  }

  /** `sof` stores one where the condition holds of the flags, and zero elsewhere. */
  lemma SofMeans(s: State, c: Condition, size: Size, d: Reg) returns (t: State)
    ensures Exec(s, Sof(c, size, d)) == Done(t) && t == s.(regs := s.regs[d := t.regs[d]])
    ensures t.regs[d] % Modulus(size) == (if TestFlags(c, s.flags) then 1 else 0)
    ensures UpperKept(s.regs[d], t.regs[d], size)
  {
    t := ExecSof(s, c, size, d).s;
    TruthStored(s.regs[d], size, TestFlags(c, s.flags));
  }

  /** `soc` does of the flags the subtraction would leave. */
  lemma SocMeans(s: State, c: Condition, borrow: bool, size: Size, d: Reg, lhs: Reg, rhs: Reg) returns (t: State)
    ensures Exec(s, Soc(c, borrow, size, d, lhs, rhs)) == Done(t) && t == s.(regs := s.regs[d := t.regs[d]])
    ensures t.regs[d] % Modulus(size) == (if Compare(s, c, size, lhs, rhs, borrow) then 1 else 0)
    ensures UpperKept(s.regs[d], t.regs[d], size)
  {
    t := ExecSoc(s, c, borrow, size, d, lhs, rhs).s;
    TruthStored(s.regs[d], size, Compare(s, c, size, lhs, rhs, borrow));
  }

  lemma TruthStored(was: u64, size: Size, b: bool)
    ensures SetLow(was, size, B(b)) % Modulus(size) == (if b then 1 else 0)
    ensures UpperKept(was, SetLow(was, size, B(b)), size)
  {
    SetLowParts(was, size, B(b));
    U.SmallResidue(B(b), size);
  }

  // ------------------------------------------------------- jumps and calls

  /** Where a jump or call goes: to a register's address, or a number of instructions from the next
      one, counted by a register or given. */
  predicate GoesTo(s: State, i: Instr, dest: u64) {
    match i
    case Jmpa(_, addr) => dest == s.regs[addr]
    case Calla(_, addr) => dest == s.regs[addr]
    case Cjmpa(_, _, addr, _, _) => dest == s.regs[addr]
    case Jmpr(_, JumpReg(r)) => dest == (s.ip + 4 + 4 * (s.regs[r] as int)) % W64
    case Callr(_, JumpReg(r)) => dest == (s.ip + 4 + 4 * (s.regs[r] as int)) % W64
    case Cjmpr(_, _, BranchReg(r), _, _) => dest == (s.ip + 4 + 4 * (s.regs[r] as int)) % W64
    case Jmpr(_, JumpRel(offset)) => dest == (s.ip + 4 + 4 * offset) % W64
    case Callr(_, JumpRel(offset)) => dest == (s.ip + 4 + 4 * offset) % W64
    case Cjmpr(_, _, BranchRel(offset), _, _) => dest == (s.ip + 4 + 4 * offset) % W64
    case _ => false
  }

  /** Its condition holds, if it has one. */
  predicate Holds(s: State, i: Instr) {
    match i
    case Jmpa(c, _) => c.None? || TestFlags(c.value, s.flags)
    case Jmpr(c, _) => c.None? || TestFlags(c.value, s.flags)
    case Calla(c, _) => c.None? || TestFlags(c.value, s.flags)
    case Callr(c, _) => c.None? || TestFlags(c.value, s.flags)
    case Cjmpa(c, size, _, lhs, rhs) => Compare(s, c, size, lhs, rhs, false)
    case Cjmpr(c, size, _, lhs, rhs) => Compare(s, c, size, lhs, rhs, false)
    case _ => false
  }

  lemma AdvanceBack(s: State, t: State, dest: u64)
    requires t == s.(ip := Wrap(dest - 4), regs := t.regs)
    ensures Advance(t) == s.(ip := dest, regs := t.regs)
  {
    WrapSum(dest - 4, 4);
    Small64(dest);
  }

  lemma JumpToMeans(s: State, dest: u64)
    ensures After(JumpTo(s, dest)) == Next(if dest % 4 != 0 then TakeException(s, InvalidOperation) else s.(ip := dest))
    ensures After(CallTo(s, dest)) == Next(if dest % 4 != 0 then TakeException(s, InvalidOperation)
            else s.(ip := dest, regs := s.regs[LR := (s.ip + 4) % W64]))
  {
    if dest % 4 == 0 {
      AdvanceBack(s, JumpTo(s, dest).s, dest);
      AdvanceBack(s, CallTo(s, dest).s, dest);
    }
  }

  lemma ControlIs(s: State, i: Instr, dest: u64)
    requires GoesTo(s, i, dest)
    ensures Exec(s, i) == if !Holds(s, i) then Done(s) else if i.Calla? || i.Callr? then CallTo(s, dest)
            else JumpTo(s, dest)
  {
  }

  /** Every jump and call, taken or not: a misaligned destination is an invalid operation, and a call
      leaves the address of the next instruction in the link register only when it goes. */
  lemma ControlGoes(s: State, i: Instr, dest: u64)
    requires GoesTo(s, i, dest)
    ensures After(Exec(s, i)) == Next(
              if !Holds(s, i) then s.(ip := (s.ip + 4) % W64)
              else if dest % 4 != 0 then TakeException(s, InvalidOperation)
              else if i.Calla? || i.Callr? then s.(ip := dest, regs := s.regs[LR := (s.ip + 4) % W64])
              else s.(ip := dest))
  {
    ControlIs(s, i, dest);
    JumpToMeans(s, dest);
  }

  /** `ret` goes where the link register says, aligned or not. */
  lemma RetGoes(s: State)
    ensures After(Exec(s, Ret)) == Next(s.(ip := s.regs[LR]))
  {
    AdvanceBack(s, ExecRet(s).s, s.regs[LR]);
  }

  // ------------------------------------------------ results not asked for

  predicate HasDestination(i: Instr) {
    i.Add? || i.Sub? || i.Logic? || i.ShiftLeft? || i.ShiftRight? || i.Rotate?
  }

  function Discarding(i: Instr): Instr
    requires HasDestination(i)
  {
    match i
    case Add(size, _, lhs, rhs, carry, f) => Add(size, None, lhs, rhs, carry, f)
    case Sub(size, _, lhs, rhs, borrow, f) => Sub(size, None, lhs, rhs, borrow, f)
    case Logic(op, size, _, lhs, rhs, f) => Logic(op, size, None, lhs, rhs, f)
    case ShiftLeft(size, _, lhs, amount, f) => ShiftLeft(size, None, lhs, amount, f)
    case ShiftRight(size, _, lhs, amount, signed, f) => ShiftRight(size, None, lhs, amount, signed, f)
    case Rotate(size, _, lhs, amount, f) => Rotate(size, None, lhs, amount, f)
  }

  /** Without a destination an instruction does to the flags what it does with one, and nothing else. */
  lemma DiscardsResult(s: State, i: Instr)
    requires HasDestination(i)
    ensures Exec(s, i).Done? && Exec(s, Discarding(i)) == Done(Exec(s, i).s.(regs := s.regs))
  {
  }
}
