/**
 Programs in guest memory: a listing is loaded at an address, and each instruction of it
 is one cycle whose effect is stated on the fields it touches.
 */
module Guest {
  import opened Bits
  import opened Memory
  import opened Isa
  import opened Machine
  import opened Runs
  import D = Decoder

  /** The routines of the example program and what lies at their addresses. */
  datatype Routine = Vector | Startup | PrintString | PrintU64 | HandleUser

  /** Where each routine is assembled. */
  function Base(r: Routine): nat {
    match r
    case Vector => 0x260
    case Startup => 0x400
    case PrintString => 0x42c
    case PrintU64 => 0x458
    case HandleUser => 0x4c0
  }

  function Lines(r: Routine): nat {
    match r
    case Vector => 1
    case Startup => 11
    case PrintString => 11
    case PrintU64 => 26
    case HandleUser => 29
  }

  function Small(n: imm11): AluRhs {
    AluImm(n, 0, false)
  }

  const CONSOLE: imm22 := 0xdead1

  function StartupLine(k: nat): Instr {
    match k
    case 0 => Ldi(SP, 0x100, 16, 3)
    case 1 => Ldr(9, -0x408)
    case 2 => Stm(7, 9)
    case 3 => Ldr(9, -0x210)
    case 4 => Stm(6, 9)
    case 5 => Ldr(0, 0x11c)
    case 6 => Callr(None, JumpRel(4))
    case 7 => Exc(0x1234)
    case 8 => Ldr(0, 0x11e)
    case 9 => Callr(None, JumpRel(1))
    case _ => Jmpr(None, JumpRel(-1))
  }

  function PrintStringLine(k: nat): Instr {
    match k
    case 0 => Pushp(Word, Some(FP), Some(LR))
    case 1 => Copy(Word, FP, SP)
    case 2 => Lds(Byte, 9, 0)
    case 3 => Sub(Byte, None, 9, Small(0), false, true)
    case 4 => Jmpr(Some(Z), JumpRel(3))
    case 5 => Stm(CONSOLE, 9)
    case 6 => Add(Word, Some(0), 0, Small(1), false, false)
    case 7 => Jmpr(None, JumpRel(-6))
    case 8 => Copy(Word, SP, FP)
    case 9 => Popp(Word, Some(FP), Some(LR))
    case _ => Ret
  }

  function PrintU64Line(k: nat): Instr {
    match k
    case 0 => Pushp(Word, Some(FP), Some(LR))
    case 1 => Copy(Word, FP, SP)
    case 2 => Sub(Word, Some(SP), SP, Small(32), false, false)
    case 3 => Copy(Word, 7, SP)
    case 4 => Ldi(8, 10, 0, 3)
    case 5 => Sub(Word, None, 0, Small(0), false, true)
    case 6 => Jmpr(Some(NZ), JumpRel(3))
    case 7 => Ldi(9, 0x30, 0, 0)
    case 8 => Stm(CONSOLE, 9)
    case 9 => Jmpr(None, JumpRel(13))
    case 10 => Sub(Word, None, 0, Small(0), false, true)
    case 11 => Jmpr(Some(Z), JumpRel(5))
    case 12 => Div(Word, 0, 9, 0, 8, false, false)
    case 13 => Add(Byte, Some(9), 9, Small(0x30), false, false)
    case 14 => Sts(Byte, 7, 9)
    case 15 => Add(Word, Some(7), 7, Small(1), false, false)
    case 16 => Jmpr(None, JumpRel(-7))
    case 17 => Sub(Word, Some(7), 7, Small(1), false, false)
    case 18 => Lds(Byte, 9, 7)
    case 19 => Stm(CONSOLE, 9)
    case 20 => Sub(Word, None, 7, AluReg(SP), false, true)
    case 21 => Jmpr(Some(Z), JumpRel(1))
    case 22 => Jmpr(None, JumpRel(-6))
    case 23 => Copy(Word, SP, FP)
    case 24 => Popp(Word, Some(FP), Some(LR))
    case _ => Ret
  }

  function HandleUserLine(k: nat): Instr {
    match k
    case 0 => Pushp(Word, Some(0), Some(1))
    case 1 => Pushp(Word, Some(2), Some(3))
    case 2 => Pushp(Word, Some(4), Some(5))
    case 3 => Pushp(Word, Some(6), Some(7))
    case 4 => Pushp(Word, Some(8), Some(9))
    case 5 => Pushp(Word, Some(10), Some(11))
    case 6 => Pushp(Word, Some(12), Some(13))
    case 7 => Pushp(Word, Some(14), Some(15))
    case 8 => Ldm(7, 4)
    case 9 => Logic(AND, Byte, Some(9), 7, Small(7), false)
    case 10 => Sub(Byte, None, 9, Small(3), false, true)
    case 11 => Jmpr(Some(Z), JumpRel(1))
    case 12 => Udf
    case 13 => ShiftRight(Word, Some(8), 7, ShiftImm(3), false, false)
    case 14 => Ldr(0, 0x51)
    case 15 => Callr(None, JumpRel(-53))
    case 16 => Copy(Word, 0, 8)
    case 17 => Callr(None, JumpRel(-44))
    case 18 => Ldi(9, 0x0a, 0, 0)
    case 19 => Stm(CONSOLE, 9)
    case 20 => Popp(Word, Some(14), Some(15))
    case 21 => Popp(Word, Some(12), Some(13))
    case 22 => Popp(Word, Some(10), Some(11))
    case 23 => Popp(Word, Some(8), Some(9))
    case 24 => Popp(Word, Some(6), Some(7))
    case 25 => Popp(Word, Some(4), Some(5))
    case 26 => Popp(Word, Some(2), Some(3))
    case 27 => Popp(Word, Some(0), Some(1))
    case _ => Eret
  }

  function Line(r: Routine, k: nat): Instr {
    match r
    case Vector => Jmpr(None, JumpRel(0x97))
    case Startup => StartupLine(k)
    case PrintString => PrintStringLine(k)
    case PrintU64 => PrintU64Line(k)
    case HandleUser => HandleUserLine(k)
  }

  /** Marks k as a line number, so that a proof looks only at the lines it names. */
  predicate Numbered(k: nat) { true }

  function End(r: Routine): nat {
    Base(r) + 4 * Lines(r)
  }

  /** The memory holds a routine: every word decodes to its line. */
  ghost predicate Loaded(dec: Decoder, m: Memory, r: Routine) {
    && End(r) <= |m|
    && forall k: nat {:trigger Numbered(k)} :: Numbered(k) && k < Lines(r) ==>
         dec(CodeWord(m, Base(r) + 4 * k)) == D.Decoded(Line(r, k))
  }

  ghost function Routines(dec: Decoder, m: Memory): set<Routine> {
    set r: Routine | Loaded(dec, m, r)
  }

  function CodeWord(m: Memory, a: nat): u32
    requires Fits(m, a, 4)
  {
    WordRange(m, a);
    ReadLe(m, a, 4)
  }

  lemma LoadedFrame(dec: Decoder, m: Memory, m': Memory, r: Routine)
    requires r in Routines(dec, m) && SameWithin(m, m', Base(r), End(r))
    ensures r in Routines(dec, m')
  {
    forall k: nat | Numbered(k) && k < Lines(r)
      ensures dec(CodeWord(m', Base(r) + 4 * k)) == D.Decoded(Line(r, k))
    {
      ReadSame(m, m', Base(r) + 4 * k, 4);
    }
  }

  /** The machine is about to execute line k of a loaded routine. */
  ghost predicate At(dec: Decoder, s: State, r: Routine, k: nat, i: Instr) {
    r in Routines(dec, s.mem) && k < Lines(r) && s.ip == Base(r) + 4 * k && Line(r, k) == i
  }

  lemma LineIsFetched(dec: Decoder, s: State, r: Routine, k: nat, i: Instr)
    requires At(dec, s, r, k, i)
    ensures AtInstr(dec, s, i)
  {
    assert Numbered(k);
  }

  lemma InCode(dec: Decoder, s: State, r: Routine, k: nat, i: Instr)
    requires At(dec, s, r, k, i)
    ensures s.ip + 4 < W64
  {
  }

  lemma AdvanceSmall(u: State)
    requires u.ip + 4 < W64
    ensures Advance(u) == u.(ip := u.ip + 4)
  {
  }

  /** One line that does not jump, as a cycle of a run. */
  lemma Arrives(dec: Decoder, s0: State, s: State, r: Routine, k: nat, i: Instr, u: State) returns (t: State)
    requires Reaches(dec, s0, s) && At(dec, s, r, k, i) && Exec(s, i) == Done(u) && u.ip == s.ip
    ensures Reaches(dec, s0, t) && t == u.(ip := s.ip + 4)
  {
    InCode(dec, s, r, k, i);
    AdvanceSmall(u);
    t := Advance(u);
    Lands(dec, s0, s, r, k, i, u, t);
  }

  /** One line, as a cycle of a run. */
  lemma Lands(dec: Decoder, s0: State, s: State, r: Routine, k: nat, i: Instr, u: State, t: State)
    requires Reaches(dec, s0, s) && At(dec, s, r, k, i) && Exec(s, i) == Done(u) && t == Advance(u)
    ensures Reaches(dec, s0, t)
  {
    LineIsFetched(dec, s, r, k, i);
    StepAt(dec, s, i);
    ReachesStep(dec, s, t);
    Chain(dec, s0, s, t);
  }

  // ---------------------------------------------- the instructions in use

  lemma SmallImmediate(n: imm11)
    ensures ImmValue(n, 0, false) == n
  {
    Pow2Values();
  }

  lemma WordSums(x: u64, y: u64)
    ensures AddOut(Word, x, y, 0) == AddMod(W64, x, y, 0)
    ensures SubOut(Word, x, y, 0) == SubMod(W64, x, y, 0)
  {
    Small64(x);
    Small64(y);
  }

  lemma WordSumValues(x: u64, y: u64)
    ensures AddOut(Word, x, y, 0).value == Wrap(x + y)
    ensures SubOut(Word, x, y, 0).value == Wrap(x - y)
    ensures SubOut(Word, x, y, 0).zero <==> x == y
  {
    WordSums(x, y);
    ZeroDifference(x, y);
  }

  lemma ZeroDifference(x: u64, y: u64)
    ensures (x - y) % W64 == 0 <==> x == y
  {
  }

  lemma CmpFlags(size: Size, x: u64, n: imm11)
    requires n < 0x100
    ensures SubOut(size, x, n, 0).zero <==> x % Modulus(size) == n
  {
  }

  lemma LowBytes(x: int, y: int)
    ensures (x % 0x100 + y % 0x100) % 0x100 == (x + y) % 0x100
  {
  }

  lemma ByteSum(was: u64, n: imm11)
    ensures AddOut(Byte, was, n, 0).value == (was + n) % 0x100
    ensures SetLow(was, Byte, AddOut(Byte, was, n, 0).value) % 0x100 == (was + n) % 0x100
  {
    LowBytes(was, n);
    SetLowParts(was, Byte, AddOut(Byte, was, n, 0).value);
  }

  lemma WordDivision(x: u64, y: u64)
    requires y > 0
    ensures Operand(Word, x, false) == x && Operand(Word, y, false) == y
    ensures TruncDiv(x, y) == x / y && TruncRem(x, y) == x % y
    ensures (x / y) % W64 == x / y && (x % y) % W64 == x % y
  {
    Small64(x);
    Small64(y);
    ShrinkDiv(x, y);
    Small64(x / y);
    Small64(x % y);
    assert x - y * (x / y) == x % y;
  }

  lemma OneByte(m: seq<byte>, a: nat)
    requires a < |m|
    ensures ReadLe(m, a, 1) == m[a]
  {
    assert ReadLe(m, a + 1, 0) == 0;
  }

  lemma OneByteWritten(m: seq<byte>, a: nat, v: nat)
    requires a < |m|
    ensures WriteLe(m, a, 1, v) == m[a := v % 0x100]
  {
    assert WriteLe(m[a := v % 0x100], a + 1, 0, v / 0x100) == m[a := v % 0x100];
  }

  predicate SameMode(f: Flags, g: Flags) {
    g.enabled == f.enabled && g.pl1 == f.pl1
  }

  lemma Landing(dest: u64)
    ensures Wrap(Wrap(dest as int - 4) + 4) == dest
  {
    WrapSum(dest as int - 4, 4);
  }

  function Target(s: State, offset: rel22): int {
    s.ip + 4 + 4 * offset
  }

  function Divided(regs: Regs, q: Reg, m: Reg, b: Reg): Regs
    requires regs[b] > 0
  {
    ShrinkDiv(regs[q], regs[b]);
    regs[m := regs[q] % regs[b]][q := regs[q] / regs[b]]
  }

  lemma CopyResult(s: State, d: Reg, src: Reg) returns (u: State)
    ensures ExecCopy(s, Word, d, src) == Done(u) && u == s.(regs := s.regs[d := s.regs[src]])
  {
    Small64(s.regs[src]);
    u := s.(regs := s.regs[d := s.regs[src]]);
  }

  lemma DoCopy(dec: Decoder, s0: State, s: State, r: Routine, k: nat, d: Reg, src: Reg) returns (t: State)
    requires Reaches(dec, s0, s) && At(dec, s, r, k, Copy(Word, d, src))
    ensures Reaches(dec, s0, t) && t == s.(regs := s.regs[d := s.regs[src]], ip := s.ip + 4)
  {
    Small64(s.regs[src]);
    t := CopyResult(s, d, src);
    t := Arrives(dec, s0, s, r, k, Copy(Word, d, src), t);
  }

  lemma LdiResult(s: State, d: Reg, imm: u16) returns (u: State)
    ensures ExecLdi(s, d, imm, 0, 3) == Done(u) && u == s.(regs := s.regs[d := imm])
  {
    Pow2Values();
    u := s.(regs := s.regs[d := imm]);
  }

  lemma DoLdi(dec: Decoder, s0: State, s: State, r: Routine, k: nat, d: Reg, imm: u16) returns (t: State)
    requires Reaches(dec, s0, s) && At(dec, s, r, k, Ldi(d, imm, 0, 3))
    ensures Reaches(dec, s0, t) && t == s.(regs := s.regs[d := imm], ip := s.ip + 4)
  {
    t := LdiResult(s, d, imm);
    t := Arrives(dec, s0, s, r, k, Ldi(d, imm, 0, 3), t);
  }

  lemma LdiLowResult(s: State, d: Reg, imm: u16) returns (u: State)
    ensures ExecLdi(s, d, imm, 0, 0) == Done(u) && u == s.(regs := s.regs[d := u.regs[d]])
    ensures u.regs[d] % 0x1_0000 == imm
  {
    Pow2Values();
    var v := LdiValue(s.regs[d], imm, 0, 0);
    assert v == s.regs[d] / 0x1_0000 * 0x1_0000 + imm;
    u := s.(regs := s.regs[d := v]);
  }

  /** Without clearing, only the low 16 bits of the register change. */
  lemma DoLdiLow(dec: Decoder, s0: State, s: State, r: Routine, k: nat, d: Reg, imm: u16) returns (t: State)
    requires Reaches(dec, s0, s) && At(dec, s, r, k, Ldi(d, imm, 0, 0))
    ensures Reaches(dec, s0, t) && t == s.(regs := s.regs[d := t.regs[d]], ip := s.ip + 4)
    ensures t.regs[d] % 0x1_0000 == imm
  {
    t := LdiLowResult(s, d, imm);
    t := Arrives(dec, s0, s, r, k, Ldi(d, imm, 0, 0), t);
  }

  lemma AddResult(s: State, d: Reg, n: imm11) returns (u: State)
    ensures ExecAdd(s, Word, Some(d), d, Small(n), false, false) == Done(u)
            && u == s.(regs := s.regs[d := Wrap(s.regs[d] + n)])
  {
    SmallImmediate(n);
    WordSumValues(s.regs[d], n);
    Small64(Wrap(s.regs[d] + n));
    u := s.(regs := s.regs[d := Wrap(s.regs[d] + n)]);
  }

  lemma DoAdd(dec: Decoder, s0: State, s: State, r: Routine, k: nat, d: Reg, n: imm11) returns (t: State)
    requires Reaches(dec, s0, s) && At(dec, s, r, k, Add(Word, Some(d), d, Small(n), false, false))
    ensures Reaches(dec, s0, t) && t == s.(regs := s.regs[d := Wrap(s.regs[d] + n)], ip := s.ip + 4)
  {
    t := AddResult(s, d, n);
    t := Arrives(dec, s0, s, r, k, Add(Word, Some(d), d, Small(n), false, false), t);
  }

  lemma AddByteResult(s: State, d: Reg, n: imm11) returns (u: State)
    ensures ExecAdd(s, Byte, Some(d), d, Small(n), false, false) == Done(u) && u == s.(regs := s.regs[d := u.regs[d]])
    ensures u.regs[d] % 0x100 == (s.regs[d] + n) % 0x100
  {
    SmallImmediate(n);
    ByteSum(s.regs[d], n);
    var v := SetLow(s.regs[d], Byte, AddOut(Byte, s.regs[d], n, 0).value);
    u := s.(regs := s.regs[d := v]);
  }

  /** A byte addition leaves the rest of the register alone. */
  lemma DoAddByte(dec: Decoder, s0: State, s: State, r: Routine, k: nat, d: Reg, n: imm11) returns (t: State)
    requires Reaches(dec, s0, s) && At(dec, s, r, k, Add(Byte, Some(d), d, Small(n), false, false))
    ensures Reaches(dec, s0, t) && t == s.(regs := s.regs[d := t.regs[d]], ip := s.ip + 4)
    ensures t.regs[d] % 0x100 == (s.regs[d] + n) % 0x100
  {
    t := AddByteResult(s, d, n);
    t := Arrives(dec, s0, s, r, k, Add(Byte, Some(d), d, Small(n), false, false), t);
  }

  lemma SubResult(s: State, d: Reg, n: imm11) returns (u: State)
    ensures ExecSub(s, Word, Some(d), d, Small(n), false, false) == Done(u)
            && u == s.(regs := s.regs[d := Wrap(s.regs[d] - n)])
  {
    SmallImmediate(n);
    WordSumValues(s.regs[d], n);
    Small64(Wrap(s.regs[d] - n));
    u := s.(regs := s.regs[d := Wrap(s.regs[d] - n)]);
  }

  lemma DoSub(dec: Decoder, s0: State, s: State, r: Routine, k: nat, d: Reg, n: imm11) returns (t: State)
    requires Reaches(dec, s0, s) && At(dec, s, r, k, Sub(Word, Some(d), d, Small(n), false, false))
    ensures Reaches(dec, s0, t) && t == s.(regs := s.regs[d := Wrap(s.regs[d] - n)], ip := s.ip + 4)
  {
    t := SubResult(s, d, n);
    t := Arrives(dec, s0, s, r, k, Sub(Word, Some(d), d, Small(n), false, false), t);
  }

  lemma CmpResult(s: State, size: Size, a: Reg, n: imm11) returns (u: State)
    requires n < 0x100
    ensures ExecSub(s, size, None, a, Small(n), false, true) == Done(u) && u == s.(flags := u.flags)
    ensures SameMode(s.flags, u.flags)
    ensures u.flags.zero <==> s.regs[a] % Modulus(size) == n
  {
    SmallImmediate(n);
    CmpFlags(size, s.regs[a], n);
    u := s.(flags := SetAlu(s.flags, SubOut(size, s.regs[a], n, 0)));
  }

  /** `cmp` with a small constant: only flags change, and Z says whether they are equal. */
  lemma DoCmp(dec: Decoder, s0: State, s: State, r: Routine, k: nat, size: Size, a: Reg, n: imm11) returns (t: State)
    requires Reaches(dec, s0, s) && At(dec, s, r, k, Sub(size, None, a, Small(n), false, true)) && n < 0x100
    ensures Reaches(dec, s0, t) && t == s.(flags := t.flags, ip := s.ip + 4)
    ensures SameMode(s.flags, t.flags)
    ensures t.flags.zero <==> s.regs[a] % Modulus(size) == n
  {
    t := CmpResult(s, size, a, n);
    t := Arrives(dec, s0, s, r, k, Sub(size, None, a, Small(n), false, true), t);
  }

  lemma CmpRegResult(s: State, a: Reg, b: Reg) returns (u: State)
    ensures ExecSub(s, Word, None, a, AluReg(b), false, true) == Done(u) && u == s.(flags := u.flags)
    ensures SameMode(s.flags, u.flags)
    ensures u.flags.zero <==> s.regs[a] == s.regs[b]
  {
    WordSumValues(s.regs[a], s.regs[b]);
    u := s.(flags := SetAlu(s.flags, SubOut(Word, s.regs[a], s.regs[b], 0)));
  }

  lemma DoCmpReg(dec: Decoder, s0: State, s: State, r: Routine, k: nat, a: Reg, b: Reg) returns (t: State)
    requires Reaches(dec, s0, s) && At(dec, s, r, k, Sub(Word, None, a, AluReg(b), false, true))
    ensures Reaches(dec, s0, t) && t == s.(flags := t.flags, ip := s.ip + 4)
    ensures SameMode(s.flags, t.flags)
    ensures t.flags.zero <==> s.regs[a] == s.regs[b]
  {
    t := CmpRegResult(s, a, b);
    t := Arrives(dec, s0, s, r, k, Sub(Word, None, a, AluReg(b), false, true), t);
  }

  lemma PrintResult(s: State, a: Reg) returns (u: State)
    ensures ExecStm(s, CONSOLE, a) == Done(u) && u == s.(console := s.console + [s.regs[a] % 0x100])
  {
    u := s.(console := s.console + [s.regs[a] % 0x100]);
  }

  lemma DoPrint(dec: Decoder, s0: State, s: State, r: Routine, k: nat, a: Reg) returns (t: State)
    requires Reaches(dec, s0, s) && At(dec, s, r, k, Stm(CONSOLE, a))
    ensures Reaches(dec, s0, t) && t == s.(console := s.console + [s.regs[a] % 0x100], ip := s.ip + 4)
  {
    t := PrintResult(s, a);
    t := Arrives(dec, s0, s, r, k, Stm(CONSOLE, a), t);
  }

  lemma LdrResult(s: State, d: Reg, offset: rel22) returns (u: State)
    requires 0 <= s.ip + 4 + offset < W64
    ensures ExecLdr(s, d, offset) == Done(u) && u == s.(regs := s.regs[d := s.ip + 4 + offset])
  {
    u := s.(regs := s.regs[d := s.ip + 4 + offset]);
  }

  lemma DoLdr(dec: Decoder, s0: State, s: State, r: Routine, k: nat, d: Reg, offset: rel22) returns (t: State)
    requires Reaches(dec, s0, s) && At(dec, s, r, k, Ldr(d, offset)) && 0 <= s.ip + 4 + offset < W64
    ensures Reaches(dec, s0, t) && t == s.(regs := s.regs[d := s.ip + 4 + offset], ip := s.ip + 4)
  {
    t := LdrResult(s, d, offset);
    t := Arrives(dec, s0, s, r, k, Ldr(d, offset), t);
  }

  lemma LoadByteResult(s: State, d: Reg, a: Reg) returns (u: State)
    requires s.regs[a] < |s.mem|
    ensures ExecLds(s, Byte, d, a) == Done(u) && u == s.(regs := s.regs[d := u.regs[d]])
    ensures u.regs[d] % 0x100 == s.mem[s.regs[a]]
  {
    OneByte(s.mem, s.regs[a]);
    u := s.(regs := s.regs[d := SetLow(s.regs[d], Byte, s.mem[s.regs[a]])]);
  }

  /** A byte load leaves the rest of the register alone. */
  lemma DoLoadByte(dec: Decoder, s0: State, s: State, r: Routine, k: nat, d: Reg, a: Reg) returns (t: State)
    requires Reaches(dec, s0, s) && At(dec, s, r, k, Lds(Byte, d, a)) && s.regs[a] < |s.mem|
    ensures Reaches(dec, s0, t) && t == s.(regs := s.regs[d := t.regs[d]], ip := s.ip + 4)
    ensures t.regs[d] % 0x100 == s.mem[s.regs[a]]
  {
    t := LoadByteResult(s, d, a);
    t := Arrives(dec, s0, s, r, k, Lds(Byte, d, a), t);
  }

  lemma StoreByteResult(s: State, a: Reg, b: Reg) returns (u: State)
    requires s.regs[a] < |s.mem|
    ensures ExecSts(s, Byte, a, b) == Done(u) && u == s.(mem := s.mem[s.regs[a] := s.regs[b] % 0x100])
  {
    OneByteWritten(s.mem, s.regs[a], s.regs[b]);
    u := s.(mem := s.mem[s.regs[a] := s.regs[b] % 0x100]);
  }

  lemma DoStoreByte(dec: Decoder, s0: State, s: State, r: Routine, k: nat, a: Reg, b: Reg) returns (t: State)
    requires Reaches(dec, s0, s) && At(dec, s, r, k, Sts(Byte, a, b)) && s.regs[a] < |s.mem|
    ensures Reaches(dec, s0, t) && t == s.(mem := s.mem[s.regs[a] := s.regs[b] % 0x100], ip := s.ip + 4)
  {
    t := StoreByteResult(s, a, b);
    t := Arrives(dec, s0, s, r, k, Sts(Byte, a, b), t);
  }

  lemma DivResult(s: State, q: Reg, m: Reg, b: Reg) returns (u: State)
    requires q != m && s.regs[b] > 0
    ensures ExecDiv(s, Word, q, m, q, b, false, false) == Done(u) && u == s.(regs := Divided(s.regs, q, m, b))
  {
    WordDivision(s.regs[q], s.regs[b]);
    u := s.(regs := Divided(s.regs, q, m, b));
  }

  /** Division of unsigned words: quotient in q, remainder in m. */
  lemma DoDiv(dec: Decoder, s0: State, s: State, r: Routine, k: nat, q: Reg, m: Reg, b: Reg) returns (t: State)
    requires Reaches(dec, s0, s) && At(dec, s, r, k, Div(Word, q, m, q, b, false, false)) && q != m && s.regs[b] > 0
    ensures Reaches(dec, s0, t) && t == s.(regs := Divided(s.regs, q, m, b), ip := s.ip + 4)
  {
    t := DivResult(s, q, m, b);
    t := Arrives(dec, s0, s, r, k, Div(Word, q, m, q, b, false, false), t);
  }

  /** A relative jump from line k to line k' of the same routine. */
  lemma DoJump(dec: Decoder, s0: State, s: State, r: Routine, k: nat, c: Option<Condition>, k': nat) returns (t: State)
    requires -1000 <= k' - k - 1 <= 1000
    requires Reaches(dec, s0, s) && At(dec, s, r, k, Jmpr(c, JumpRel(k' - k - 1))) && k' < Lines(r)
    ensures Reaches(dec, s0, t) && t == s.(ip := Base(r) + 4 * (if Taken(c, s.flags) then k' else k + 1))
  {
    assert s.ip % 4 == 0 && Target(s, k' - k - 1) == Base(r) + 4 * k';
    t := DoFarJump(dec, s0, s, r, k, c, k' - k - 1);
  }

  /** A relative jump within the program. */
  lemma DoFarJump(dec: Decoder, s0: State, s: State, r: Routine, k: nat, c: Option<Condition>, offset: rel22)
          returns (t: State)
    requires Reaches(dec, s0, s) && At(dec, s, r, k, Jmpr(c, JumpRel(offset)))
    requires s.ip % 4 == 0 && 0 <= Target(s, offset) < W64
    ensures Reaches(dec, s0, t) && t == s.(ip := if Taken(c, s.flags) then Target(s, offset) else s.ip + 4)
  {
    if Taken(c, s.flags) {
      var u := JumpResult(s, offset);
      t := s.(ip := Target(s, offset));
      Lands(dec, s0, s, r, k, Jmpr(c, JumpRel(offset)), u, t);
    } else {
      t := Arrives(dec, s0, s, r, k, Jmpr(c, JumpRel(offset)), s);
    }
  }

  lemma JumpResult(s: State, offset: rel22) returns (u: State)
    requires s.ip % 4 == 0 && 0 <= Target(s, offset) < W64
    ensures JumpTo(s, TargetAddress(s, JumpRel(offset))) == Done(u)
    ensures Advance(u) == s.(ip := Target(s, offset)) && u == s.(ip := u.ip)
  {
    var dest: u64 := Target(s, offset);
    assert TargetAddress(s, JumpRel(offset)) == dest by { Small64(dest); }
    Landing(dest);
    u := s.(ip := Wrap(dest - 4));
  }

  lemma DoCall(dec: Decoder, s0: State, s: State, r: Routine, k: nat, offset: rel22) returns (t: State)
    requires Reaches(dec, s0, s) && At(dec, s, r, k, Callr(None, JumpRel(offset)))
    requires s.ip % 4 == 0 && 0 <= Target(s, offset) < W64
    ensures Reaches(dec, s0, t) && t == s.(regs := s.regs[LR := s.ip + 4], ip := Target(s, offset))
  {
    InCode(dec, s, r, k, Callr(None, JumpRel(offset)));
    var u := CallResult(s, offset);
    t := Advance(u);
    Lands(dec, s0, s, r, k, Callr(None, JumpRel(offset)), u, t);
  }

  lemma CallResult(s: State, offset: rel22) returns (u: State)
    requires s.ip + 4 < W64 && s.ip % 4 == 0 && 0 <= Target(s, offset) < W64
    ensures CallTo(s, TargetAddress(s, JumpRel(offset))) == Done(u)
    ensures Advance(u) == s.(regs := s.regs[LR := s.ip + 4], ip := Target(s, offset))
  {
    Small64(s.ip + 4);
    u := JumpResult(s, offset);
    u := u.(regs := s.regs[LR := s.ip + 4]);
  }

  lemma DoRet(dec: Decoder, s0: State, s: State, r: Routine, k: nat) returns (t: State)
    requires Reaches(dec, s0, s) && At(dec, s, r, k, Ret)
    ensures Reaches(dec, s0, t) && t == s.(ip := s.regs[LR])
  {
    Landing(s.regs[LR]);
    t := s.(ip := s.regs[LR]);
    Lands(dec, s0, s, r, k, Ret, s.(ip := Wrap((s.regs[LR] as int) - 4)), t);
  }

  lemma TwoWords(m: seq<byte>, p: nat, x: u64, y: u64)
    requires p + 16 <= |m|
    ensures var m' := WriteLe(WriteLe(m, p, 8, x), p + 8, 8, y);
            SameOutside(m, m', p, p + 16) && ReadLe(m', p, 8) == x && ReadLe(m', p + 8, 8) == y
  {
    Pow2Values();
    var m1 := WriteLe(m, p, 8, x);
    WriteFrame(m, p, 8, x);
    WriteFrame(m1, p + 8, 8, y);
    ReadBack(m, p, 8, x);
    ReadBack(m1, p + 8, 8, y);
    ReadOther(m1, p + 8, 8, y, p, 8);
  }

  lemma PushpResult(s: State, a: Reg, b: Reg) returns (u: State)
    requires 16 <= s.regs[SP] <= |s.mem|
    ensures ExecPushp(s, Word, Some(a), Some(b)) == Done(u)
    ensures u == s.(mem := u.mem, regs := s.regs[SP := s.regs[SP] - 16])
    ensures u.mem == WriteLe(WriteLe(s.mem, s.regs[SP] - 16, 8, s.regs[a]), s.regs[SP] - 8, 8, s.regs[b])
  {
    var sp := s.regs[SP] - 16;
    Small64(s.regs[a]);
    Small64(s.regs[b]);
    Small64(sp);
    var m := WriteLe(s.mem, sp, 8, s.regs[a]);
    u := s.(mem := WriteLe(m, sp + 8, 8, s.regs[b]), regs := s.regs[SP := sp]);
  }

  /** Push two words. */
  lemma DoPushp(dec: Decoder, s0: State, s: State, r: Routine, k: nat, a: Reg, b: Reg) returns (t: State)
    requires Reaches(dec, s0, s) && At(dec, s, r, k, Pushp(Word, Some(a), Some(b))) && 16 <= s.regs[SP] <= |s.mem|
    ensures Reaches(dec, s0, t)
    ensures t == s.(mem := t.mem, regs := s.regs[SP := s.regs[SP] - 16], ip := s.ip + 4)
    ensures SameOutside(s.mem, t.mem, s.regs[SP] - 16, s.regs[SP])
    ensures ReadLe(t.mem, s.regs[SP] - 16, 8) == s.regs[a] && ReadLe(t.mem, s.regs[SP] - 8, 8) == s.regs[b]
  {
    TwoWords(s.mem, s.regs[SP] - 16, s.regs[a], s.regs[b]);
    var u := PushpResult(s, a, b);
    t := Arrives(dec, s0, s, r, k, Pushp(Word, Some(a), Some(b)), u);
  }

  function ReadWord(m: seq<byte>, a: nat): (r: u64)
    requires Fits(m, a, 8)
    ensures r == ReadLe(m, a, 8)
  {
    WordRange(m, a);
    ReadLe(m, a, 8)
  }

  function Popped(s: State, a: Reg, b: Reg): Regs
    requires s.regs[SP] + 16 <= |s.mem|
  {
    s.regs[a := ReadWord(s.mem, s.regs[SP])][b := ReadWord(s.mem, s.regs[SP] + 8)][SP := s.regs[SP] + 16]
  }

  lemma PoppResult(s: State, a: Reg, b: Reg) returns (u: State)
    requires s.regs[SP] + 16 <= |s.mem|
    ensures ExecPopp(s, Word, Some(a), Some(b)) == Done(u) && u == s.(regs := Popped(s, a, b))
  {
    var sp := s.regs[SP];
    Small64(ReadWord(s.mem, sp));
    Small64(ReadWord(s.mem, sp + 8));
    Small64(sp + 16);
    u := s.(regs := Popped(s, a, b));
  }

  /** Pop two words. */
  lemma DoPopp(dec: Decoder, s0: State, s: State, r: Routine, k: nat, a: Reg, b: Reg) returns (t: State)
    requires Reaches(dec, s0, s) && At(dec, s, r, k, Popp(Word, Some(a), Some(b))) && s.regs[SP] + 16 <= |s.mem|
    ensures Reaches(dec, s0, t) && t == s.(regs := Popped(s, a, b), ip := s.ip + 4)
  {
    t := PoppResult(s, a, b);
    t := Arrives(dec, s0, s, r, k, Popp(Word, Some(a), Some(b)), t);
  }
}
