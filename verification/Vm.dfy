/**
 The emulator: an object whose memory, registers, packed flag words and machine
 registers are updated in place, statement by statement, as the emulator does.
 Every method is proved to compute the corresponding function of module Machine.
 */
module Vm {
  import opened Bits
  import opened Templates
  import opened Memory
  import opened Isa
  import opened Util
  import opened M = Machine
  import D = Decoder
  import E = Encoder

  /** How an instruction body ends: at its end, by an early return, or in a panic. */
  datatype Flow = Fallthrough | Returned | Panicked

  class VM {
    const memory: array<byte>
    const registerFile: array<u64>
    var flags: u64
    var instructionPointer: u64
    var elr: u64
    var esp: u64
    var eflags: u64
    var einfo: u64
    var eaddr: u64
    var evtableAddr: u64
    var ectableAddr: u64
    var ectable: Ectable
    var console: seq<byte>

    ghost predicate Valid()
      reads this
    {
      && registerFile.Length == 16 && memory.Length < W64
      && (memory as object) != (registerFile as object)
      && flags < 64 && eflags < 64
    }

    /** The abstract machine state. */
    ghost function State(): M.State
      requires Valid()
      reads this, memory, registerFile
    {
      M.State(memory[..], registerFile[..], FlagsOf(flags), instructionPointer,
              elr, esp, FlagsOf(eflags), einfo, eaddr, evtableAddr, ectableAddr, ectable, console)
    }

    /** What a body that ended this way has done to the machine. */
    ghost function Did(f: Flow): Effect
      requires Valid()
      reads this, memory, registerFile
    {
      match f
      case Fallthrough => Done(State())
      case Returned => Raised(State())
      case Panicked => Abort
    }

    constructor (memorySize: u64)
      ensures Valid() && State() == Reset(memorySize)
      ensures fresh(memory) && fresh(registerFile)
    {
      memory := new byte[memorySize](i => 0);
      registerFile := new u64[16](i => 0);
      flags := 0;
      instructionPointer := 0x400;
      elr, esp, eflags, einfo, eaddr, evtableAddr, ectableAddr := 0, 0, 0, 0, 0, 0, 0;
      var empty := seq(8, i => Entry(0, 0, 0));
      ectable := Ectable(empty, empty);
      console := [];
      new;
      assert FlagsOf(0) == NO_FLAGS;
      assert memory[..] == seq(memorySize, i => 0 as byte);
      assert registerFile[..] == seq(16, i => 0 as u64);
    }

    // ------------------------------------------------------------ memory

    /** `get(start..end)`: the range must be ordered and end inside the memory. */
    predicate InMemory(start: u64, end: u64)
      reads this
    {
      start <= end <= memory.Length
    }

    /** The range test on wrapping addresses is the unbounded bounds check. */
    lemma RangeIsFits(a: u64, n: nat)
      requires Valid() && 0 < n <= 0x1000
      ensures InMemory(a, Wrap(a + n)) <==> Fits(memory[..], a, n)
    {
    }

    method ReadBytes(a: u64, n: nat) returns (v: nat)
      requires Valid() && Fits(memory[..], a, n)
      ensures v == ReadLe(memory[..], a, n)
    {
      v := 0;
      var i := n;
      while i > 0
        invariant 0 <= i <= n
        invariant v == ReadLe(memory[..], a + i, n - i)
      {
        i := i - 1;
        v := memory[a + i] + 0x100 * v;
      }
    }

    method WriteBytes(a: u64, n: nat, v: nat)
      requires Valid() && Fits(memory[..], a, n)
      modifies memory
      ensures memory[..] == WriteLe(old(memory[..]), a, n, v)
    {
      var rest := v;
      var i := 0;
      while i < n
        invariant 0 <= i <= n
        invariant WriteLe(memory[..], a + i, n - i, rest) == WriteLe(old(memory[..]), a, n, v)
      {
        ghost var before := memory[..];
        memory[a + i] := rest % 0x100;
        assert memory[..] == before[a + i := rest % 0x100];
        rest := rest / 0x100;
        i := i + 1;
      }
    }

    /** `load_file`: the file's bytes replace those from `dest` on; the emulator panics when
        they do not fit. */
    method LoadFile(file: seq<byte>, dest: u64) returns (loaded: bool)
      requires Valid()
      modifies memory
      ensures Valid() && loaded == (dest + |file| <= memory.Length)
      ensures State() == old(State()).(mem := memory[..])
      ensures !loaded ==> memory[..] == old(memory[..])
      ensures loaded ==> memory[..] == old(memory[..dest]) + file + old(memory[dest + |file|..])
    {
      if dest + |file| > memory.Length { return false; }
      for i := 0 to |file|
        invariant memory[..dest + i] == old(memory[..dest]) + file[..i]
        invariant memory[dest + i..] == old(memory[dest + i..])
      {
        memory[dest + i] := file[i];
      }
      assert file[..|file|] == file;
      assert memory[..] == memory[..dest + |file|] + memory[dest + |file|..];
      loaded := true;
    }

    /** `size.read`, without sign extension. */
    method ReadSized(a: u64, size: Size) returns (v: u64)
      requires Valid() && Fits(memory[..], a, ByteSize(size))
      ensures v == ReadLe(memory[..], a, ByteSize(size))
    {
      WordRange(memory[..], a);
      v := ReadBytes(a, ByteSize(size));
    }

    /** Two elements written to the halves of one slice. */
    method WritePair(a: u64, n: nat, v1: nat, v2: nat)
      requires Valid() && Fits(memory[..], a, 2 * n)
      modifies memory
      ensures memory[..] == WriteLe(WriteLe(old(memory[..]), a, n, v1), a + n, n, v2)
    {
      WriteBytes(a, n, v1);
      WriteBytes(a + n, n, v2);
    }

    /** Two elements read from the halves of one slice. */
    method ReadPair(a: u64, size: Size) returns (v1: u64, v2: u64)
      requires Valid() && Fits(memory[..], a, 2 * ByteSize(size))
      ensures v1 == ReadLe(memory[..], a, ByteSize(size))
      ensures v2 == ReadLe(memory[..], a + ByteSize(size), ByteSize(size))
    {
      v1 := ReadSized(a, size);
      v2 := ReadSized(a + ByteSize(size), size);
    }

    /** A null source reads as zero. */
    method GetNullable(r: Option<Reg>, size: Size) returns (v: u64)
      requires Valid()
      ensures v == LowOpt(registerFile[..], r, size)
    {
      v := if r.Some? then GetUnsigned(registerFile[r.value], size) else 0;
    }

    method SetRegister(r: Reg, v: u64)
      requires Valid()
      modifies registerFile
      ensures registerFile[..] == old(registerFile[..])[r := v]
    {
      registerFile[r] := v;
    }

    method SetSized(r: Reg, size: Size, v: u64)
      requires Valid()
      modifies registerFile
      ensures registerFile[..] == SetReg(old(registerFile[..]), r, size, v)
    {
      registerFile[r] := RegisterSet(registerFile[r], size, v);
    }

    method SetNullable(r: Option<Reg>, size: Size, v: u64)
      requires Valid()
      modifies registerFile
      ensures registerFile[..] == SetOpt(old(registerFile[..]), r, size, v)
    {
      if r.Some? {
        SetSized(r.value, size, v);
      }
    }

    // -------------------------------------------------------- exceptions

    method TakeException(e: Exception)
      requires Valid()
      modifies this, registerFile
      ensures Valid() && State() == M.TakeException(old(State()), e)
    {
      eflags := flags;
      elr := instructionPointer;
      MaskFlags();
      esp := registerFile[SP];
      RecordDetails(e);
      SelectStack(e);
      SelectVector(e);
    }

    method RecordDetails(e: Exception)
      modifies this`einfo, this`eaddr
      ensures einfo == ExceptionInfo(e)
      ensures eaddr == if e.DataLoadError? then e.address else 0
    {
      einfo := InfoWord(e);
      eaddr := match e
        case DataLoadError(address, _, _) => address
        case _ => 0;
    }

    /** Mask exceptions and enter PL0. */
    method MaskFlags()
      requires Valid()
      modifies this`flags
      ensures Valid() && FlagsOf(flags) == old(FlagsOf(flags)).(enabled := false, pl1 := false)
    {
      flags := SetExceptionsEnabled(flags, false);
      flags := SetPrivilegeLevel(flags, false);
    }

    predicate FromPl1()
      requires Valid()
      reads this
      ensures FromPl1() == FlagsOf(eflags).pl1
    {
      BitAsBool(eflags, 5)
    }

    /** The stack switch of an exception entry. */
    method SelectStack(e: Exception)
      requires Valid()
      modifies registerFile
      ensures registerFile[..] == old(registerFile[..])[SP := HandlerSp(ectable, FlagsOf(eflags),
              old(registerFile[SP]), e)]
    {
      var entry := if FromPl1() then ectable.pl1[ExceptionId(e)] else ectable.pl0[ExceptionId(e)];
      assert entry == EntryFor(ectable, FlagsOf(eflags), e);
      var sp := SwitchedSp(entry, registerFile[SP]);
      SetRegister(SP, sp);
    }

    static method SwitchedSp(entry: Entry, rsp: u64) returns (sp: u64)
      ensures sp == EntrySp(entry, rsp)
    {
      var stackBase := entry.stackPointer;
      var stackTop := Wrap(entry.stackPointer + entry.stackSize);
      var useStack := BitAsBool(entry.flags, 0);
      sp := if useStack && (rsp < stackBase || rsp > stackTop) then stackTop else rsp;
    }

    static method VectorOf(base: u64, pl1: bool, id: nat) returns (r: u64)
      requires id < 8
      ensures r == Wrap(base + 256 * B(pl1) + 32 * id)
    {
      var plOffset := if pl1 then 256 else 0;
      WrapSum(base + plOffset, id * 32);
      r := Wrap(Wrap(base + plOffset) + id * 32);
    }

    method SelectVector(e: Exception)
      requires Valid()
      modifies this`instructionPointer
      ensures instructionPointer == VectorAddress(evtableAddr, FlagsOf(eflags), e)
    {
      var pl1 := FromPl1();
      instructionPointer := VectorOf(evtableAddr, pl1, ExceptionId(e));
    }

    method Fault(a: u64, n: u16, write: bool) returns (f: Flow)
      requires Valid()
      modifies this, registerFile
      ensures Valid() && Did(f) == M.Fault(old(State()), a, n, write)
    {
      TakeException(DataLoadError(a, write, n));
      f := Returned;
    }

    // -------------------------------------------------- memory instructions

    method Pushs(size: Size, src: Option<Reg>) returns (f: Flow)
      requires Valid()
      modifies this, memory, registerFile
      ensures Valid() && Did(f) == ExecPushs(old(State()), size, src)
    {
      var byteSize := ByteSize(size);
      var val := GetNullable(src, size);
      var newRsp := Wrap(registerFile[SP] - byteSize);
      RangeIsFits(newRsp, byteSize);
      if !InMemory(newRsp, Wrap(newRsp + byteSize)) {
        f := Fault(newRsp, byteSize, true);
        return;
      }
      WriteBytes(newRsp, byteSize, val);
      SetRegister(SP, newRsp);
      f := Fallthrough;
    }

    method Pushp(size: Size, src1: Option<Reg>, src2: Option<Reg>) returns (f: Flow)
      requires Valid()
      modifies this, memory, registerFile
      ensures Valid() && Did(f) == ExecPushp(old(State()), size, src1, src2)
    {
      var byteSize := ByteSize(size);
      var val1 := GetNullable(src1, size);
      var val2 := GetNullable(src2, size);
      var newRsp := Wrap(registerFile[SP] - 2 * byteSize);
      f := PushPair(newRsp, byteSize, val1, val2);
    }

    method PushPair(newRsp: u64, n: nat, v1: nat, v2: nat) returns (f: Flow)
      requires Valid() && 0 < n <= 8
      modifies this, memory, registerFile
      ensures Valid()
      ensures Did(f) == PushTwo(old(State()), newRsp, n, v1, v2)
    {
      RangeIsFits(newRsp, 2 * n);
      if !InMemory(newRsp, Wrap(newRsp + 2 * n)) {
        f := Fault(newRsp, 2 * n, true);
        return;
      }
      StorePair(newRsp, n, v1, v2);
      f := Fallthrough;
    }

    method StorePair(newRsp: u64, n: nat, v1: nat, v2: nat)
      requires Valid() && Fits(memory[..], newRsp, 2 * n)
      modifies memory, registerFile
      ensures Valid()
      ensures State() == old(State()).(mem := WriteLe(WriteLe(old(State().mem), newRsp, n, v1), newRsp + n, n, v2),
                                       regs := old(State().regs)[SP := newRsp])
    {
      WritePair(newRsp, n, v1, v2);
      SetRegister(SP, newRsp);
    }

    method Pops(size: Size, dst: Option<Reg>) returns (f: Flow)
      requires Valid()
      modifies this, registerFile
      ensures Valid() && Did(f) == ExecPops(old(State()), size, dst)
    {
      var byteSize := ByteSize(size);
      var rsp := registerFile[SP];
      RangeIsFits(rsp, byteSize);
      if !InMemory(rsp, Wrap(rsp + byteSize)) {
        f := Fault(rsp, byteSize, false);
        return;
      }
      var val := ReadSized(rsp, size);
      SetNullable(dst, size, val);
      SetRegister(SP, Wrap(rsp + byteSize));
      f := Fallthrough;
    }

    method Popp(size: Size, dst1: Option<Reg>, dst2: Option<Reg>) returns (f: Flow)
      requires Valid()
      modifies this, registerFile
      ensures Valid() && Did(f) == ExecPopp(old(State()), size, dst1, dst2)
    {
      var byteSize := ByteSize(size);
      var rsp := registerFile[SP];
      RangeIsFits(rsp, 2 * byteSize);
      if !InMemory(rsp, Wrap(rsp + 2 * byteSize)) {
        f := Fault(rsp, 2 * byteSize, false);
        return;
      }
      var val1, val2 := ReadPair(rsp, size);
      SetPair(dst1, dst2, size, val1, val2, Wrap(rsp + 2 * byteSize));
      f := Fallthrough;
    }

    method SetPair(dst1: Option<Reg>, dst2: Option<Reg>, size: Size, val1: u64, val2: u64, newRsp: u64)
      requires Valid()
      modifies registerFile
      ensures Valid()
      ensures State() == old(State()).(regs := SetOpt(SetOpt(old(State().regs), dst1, size, val1), dst2, size,
              val2)[SP := newRsp])
    {
      SetNullable(dst1, size, val1);
      SetNullable(dst2, size, val2);
      SetRegister(SP, newRsp);
    }

    method Lds(size: Size, dst: Reg, srcAddr: Reg) returns (f: Flow)
      requires Valid()
      modifies this, registerFile
      ensures Valid() && Did(f) == ExecLds(old(State()), size, dst, srcAddr)
    {
      var addr := registerFile[srcAddr];
      RangeIsFits(addr, ByteSize(size));
      if !InMemory(addr, Wrap(addr + ByteSize(size))) {
        f := Fault(addr, ByteSize(size), false);
        return;
      }
      var val := ReadSized(addr, size);
      SetSized(dst, size, val);
      f := Fallthrough;
    }

    method Ldp(size: Size, dst1: Reg, dst2: Reg, srcAddr: Reg) returns (f: Flow)
      requires Valid()
      modifies this, registerFile
      ensures Valid() && Did(f) == ExecLdp(old(State()), size, dst1, dst2, srcAddr)
    {
      var addr := registerFile[srcAddr];
      var byteSize := ByteSize(size);
      RangeIsFits(addr, 2 * byteSize);
      if !InMemory(addr, Wrap(addr + 2 * byteSize)) {
        f := Fault(addr, 2 * byteSize, false);
        return;
      }
      var val1, val2 := ReadPair(addr, size);
      SetSized(dst1, size, val1);
      SetSized(dst2, size, val2);
      f := Fallthrough;
    }

    method Sts(size: Size, dstAddr: Reg, src: Reg) returns (f: Flow)
      requires Valid()
      modifies this, memory, registerFile
      ensures Valid() && Did(f) == ExecSts(old(State()), size, dstAddr, src)
    {
      var addr := registerFile[dstAddr];
      var val := registerFile[src];
      RangeIsFits(addr, ByteSize(size));
      if !InMemory(addr, Wrap(addr + ByteSize(size))) {
        f := Fault(addr, ByteSize(size), true);
        return;
      }
      WriteBytes(addr, ByteSize(size), val);
      f := Fallthrough;
    }

    /** The slice holds one element, so after the split the second half is empty and the
        second write panics. */
    method Stp(size: Size, dstAddr: Reg, src1: Reg, src2: Reg) returns (f: Flow)
      requires Valid()
      modifies this, memory, registerFile
      ensures Valid() && Did(f) == ExecStp(old(State()), size, dstAddr)
    {
      var addr := registerFile[dstAddr];
      var val1, val2 := registerFile[src1], registerFile[src2];
      RangeIsFits(addr, ByteSize(size));
      if !InMemory(addr, Wrap(addr + ByteSize(size))) {
        f := Fault(addr, ByteSize(size), true);
        return;
      }
      WriteBytes(addr, ByteSize(size), val1);
      f := Panicked;
    }

    method Ldi(dst: Reg, src: u16, shift: imm6, clear: imm2) returns (f: Flow)
      requires Valid()
      modifies registerFile
      ensures Did(f) == ExecLdi(old(State()), dst, src, shift, clear)
    {
      LdiMeaning(registerFile[dst], src, shift, clear);
      SetRegister(dst, LdiCode(registerFile[dst], src, shift, clear));
      f := Fallthrough;
    }

    method Ldr(dst: Reg, offset: rel22) returns (f: Flow)
      requires Valid()
      modifies registerFile
      ensures Did(f) == ExecLdr(old(State()), dst, offset)
    {
      var relBase := Wrap(instructionPointer + 4);
      WrapSum(instructionPointer + 4, offset);
      SetRegister(dst, Wrap(relBase + offset));
      f := Fallthrough;
    }

    method Copy(size: Size, dst: Reg, src: Reg) returns (f: Flow)
      requires Valid()
      modifies registerFile
      ensures Did(f) == ExecCopy(old(State()), size, dst, src)
    {
      var val := GetUnsigned(registerFile[src], size);
      SetLowTwice(registerFile[dst], size, registerFile[src]);
      SetSized(dst, size, val);
      f := Fallthrough;
    }

    // ---------------------------------------------------- ALU instructions

    method SetZeroSign(result: u64, size: Size)
      requires Valid()
      modifies this`flags
      ensures Valid() && FlagsOf(flags) == SetZs(old(FlagsOf(flags)), size, result)
    {
      MaskIsMod(result, size);
      MsbIsSign(result, size);
      flags := SetZero(flags, And(result, SizeMask(size)) == 0);
      flags := SetSign(flags, BitAsBool(result, MsbIndex(size)));
    }

    method SetArithmeticFlags(carry: bool, zero: bool, overflow: bool, sign: bool)
      requires Valid()
      modifies this`flags
      ensures Valid()
      ensures FlagsOf(flags) == old(FlagsOf(flags)).(carry := carry, zero := zero, overflow := overflow, sign := sign)
    {
      flags := SetCarry(flags, carry);
      flags := SetZero(flags, zero);
      flags := SetOverflow(flags, overflow);
      flags := SetSign(flags, sign);
    }

    method SetAddFlags(lhs: u64, rhs: u64, result: u64, size: Size, ghost cin: nat)
      requires Valid() && cin <= 1 && result % Modulus(size) == AddOut(size, lhs, rhs, cin).value
      modifies this`flags
      ensures Valid() && FlagsOf(flags) == SetAlu(old(FlagsOf(flags)), AddOut(size, lhs, rhs, cin))
    {
      var msb := MsbIndex(size);
      SumFlags(size, lhs, rhs, result, cin);
      var lhsMsb, rhsMsb, resMsb := BitAsBool(lhs, msb), BitAsBool(rhs, msb), BitAsBool(result, msb);
      SetArithmeticFlags((lhsMsb && rhsMsb) || ((lhsMsb || rhsMsb) && !resMsb),
                         And(result, SizeMask(size)) == 0,
                         (lhsMsb && rhsMsb && !resMsb) || (!lhsMsb && !rhsMsb && resMsb),
                         resMsb);
    }

    method SetSubFlags(lhs: u64, rhs: u64, result: u64, size: Size, ghost bin: nat)
      requires Valid() && bin <= 1 && result % Modulus(size) == SubOut(size, lhs, rhs, bin).value
      modifies this`flags
      ensures Valid() && FlagsOf(flags) == SetAlu(old(FlagsOf(flags)), SubOut(size, lhs, rhs, bin))
    {
      var msb := MsbIndex(size);
      DifferenceFlags(size, lhs, rhs, result, bin);
      var lhsMsb, rhsMsb, resMsb := BitAsBool(lhs, msb), BitAsBool(rhs, msb), BitAsBool(result, msb);
      SetArithmeticFlags((!lhsMsb && rhsMsb) || (resMsb && rhsMsb) || (resMsb && !lhsMsb),
                         And(result, SizeMask(size)) == 0,
                         (lhsMsb && !rhsMsb && !resMsb) || (!lhsMsb && rhsMsb && resMsb),
                         resMsb);
    }

    /** The right operand of an addition or subtraction. */
    method SignedRhs(rhs: AluRhs, size: Size) returns (v: u64)
      requires Valid()
      ensures v % Modulus(size) == RhsValue(registerFile[..], rhs) % Modulus(size)
    {
      match rhs
      case AluReg(r) => v := GetSigned(registerFile[r], size);
      case AluImm(imm, factor, sx) =>
        Imm11Meaning(imm, factor, sx);
        v := Imm11WithShiftFactor(imm, factor, sx);
    }

    method AddInto(size: Size, dst: Option<Reg>, left: u64, right: u64, carryIn: nat, setFlags: bool, ghost a: u64,
            ghost b: u64)
      requires Valid() && carryIn <= 1
      requires left % Modulus(size) == a % Modulus(size) && right % Modulus(size) == b % Modulus(size)
      modifies this`flags, registerFile
      ensures Valid() && registerFile[..] == SetOpt(old(registerFile[..]), dst, size, AddOut(size, a, b, carryIn).value)
      ensures FlagsOf(flags) == if setFlags then SetAlu(old(FlagsOf(flags)), AddOut(size, a, b, carryIn))
              else old(FlagsOf(flags))
    {
      var result := WrappingAdd(WrappingAdd(left, right), carryIn);
      SumResult(size, left, right, a, b, carryIn);
      SetLowResult(size, dst, registerFile[..], result, AddOut(size, a, b, carryIn).value);
      SetNullable(dst, size, result);
      if setFlags {
        SetAddFlags(left, right, result, size, carryIn);
      }
    }

    method SubInto(size: Size, dst: Option<Reg>, left: u64, right: u64, borrowIn: nat, setFlags: bool, ghost a: u64,
            ghost b: u64)
      requires Valid() && borrowIn <= 1
      requires left % Modulus(size) == a % Modulus(size) && right % Modulus(size) == b % Modulus(size)
      modifies this`flags, registerFile
      ensures Valid() && registerFile[..]
              == SetOpt(old(registerFile[..]), dst, size, SubOut(size, a, b, borrowIn).value)
      ensures FlagsOf(flags) == if setFlags then SetAlu(old(FlagsOf(flags)), SubOut(size, a, b, borrowIn))
              else old(FlagsOf(flags))
    {
      var result := WrappingSub(WrappingSub(left, right), borrowIn);
      DifferenceResult(size, left, right, a, b, borrowIn);
      SetLowResult(size, dst, registerFile[..], result, SubOut(size, a, b, borrowIn).value);
      SetNullable(dst, size, result);
      if setFlags {
        SetSubFlags(left, right, result, size, borrowIn);
      }
    }

    method Add(size: Size, dst: Option<Reg>, lhs: Reg, rhs: AluRhs, carry: bool, setFlags: bool) returns (f: Flow)
      requires Valid()
      modifies this`flags, registerFile
      ensures Valid() && Did(f) == ExecAdd(old(State()), size, dst, lhs, rhs, carry, setFlags)
    {
      var left := GetSigned(registerFile[lhs], size);
      var right := SignedRhs(rhs, size);
      var carryIn := if carry && BitAsBool(flags, 0) then 1 else 0;
      AddInto(size, dst, left, right, carryIn, setFlags, registerFile[lhs], RhsValue(registerFile[..], rhs));
      f := Fallthrough;
    }

    method Sub(size: Size, dst: Option<Reg>, lhs: Reg, rhs: AluRhs, borrow: bool, setFlags: bool) returns (f: Flow)
      requires Valid()
      modifies this`flags, registerFile
      ensures Valid() && Did(f) == ExecSub(old(State()), size, dst, lhs, rhs, borrow, setFlags)
    {
      var left := GetSigned(registerFile[lhs], size);
      var right := SignedRhs(rhs, size);
      var borrowIn := if borrow && BitAsBool(flags, 0) then 1 else 0;
      SubInto(size, dst, left, right, borrowIn, setFlags, registerFile[lhs], RhsValue(registerFile[..], rhs));
      f := Fallthrough;
    }

    /** An operand as an i64 or as a u64. */
    method ReadOperand(r: Reg, size: Size, signed: bool) returns (v: int)
      requires Valid()
      ensures v == M.Operand(size, registerFile[r], signed)
    {
      if signed {
        SignedAsI64(registerFile[r], size);
        v := AsI64(GetSigned(registerFile[r], size));
      } else {
        v := GetUnsigned(registerFile[r], size);
      }
    }

    method Mul(srcSize: Size, dstSize: Size, dst: Reg, lhs: Reg, rhs: Reg, signed: bool, setFlags: bool)
            returns (f: Flow)
      requires Valid()
      modifies this`flags, registerFile
      ensures Valid() && Did(f) == ExecMul(old(State()), srcSize, dstSize, dst, lhs, rhs, signed, setFlags)
    {
      var left := ReadOperand(lhs, srcSize, signed);
      var right := ReadOperand(rhs, srcSize, signed);
      var result := Wrap(left * right);
      SetSized(dst, dstSize, result);
      if setFlags {
        SetZeroSign(result, dstSize);
      }
      f := Fallthrough;
    }

    method Div(size: Size, quot: Reg, rem: Reg, lhs: Reg, rhs: Reg, signed: bool, setFlags: bool) returns (f: Flow)
      requires Valid()
      modifies this`flags, registerFile
      ensures Valid() && Did(f) == ExecDiv(old(State()), size, quot, rem, lhs, rhs, signed, setFlags)
    {
      var left := ReadOperand(lhs, size, signed);
      var right := ReadOperand(rhs, size, signed);
      DivisionPanicsWhen(size, registerFile[lhs], registerFile[rhs], signed);
      if right == 0 || (signed && left == -0x8000_0000_0000_0000 && right == -1) {
        return Panicked;
      }
      var resultQuot, resultRem := Wrap(TruncDiv(left, right)), Wrap(TruncRem(left, right));
      StoreDivision(size, quot, rem, resultQuot, resultRem, TruncDiv(left, right), TruncRem(left, right));
      if setFlags {
        WrapKeepsLow(TruncDiv(left, right), size);
        SetZeroSign(resultQuot, size);
      }
      f := Fallthrough;
    }

    /** The remainder is stored first, so a quotient in the same register wins. */
    method StoreDivision(size: Size, quot: Reg, rem: Reg, resultQuot: u64, resultRem: u64, ghost q: int, ghost r: int)
      requires Valid() && resultQuot == Wrap(q) && resultRem == Wrap(r)
      modifies registerFile
      ensures var regs := if quot != rem then SetReg(old(registerFile[..]), rem, size, r) else old(registerFile[..]);
              registerFile[..] == SetReg(regs, quot, size, q)
    {
      SetLowWrapped(registerFile[rem], size, r);
      if quot != rem {
        SetSized(rem, size, resultRem);
      }
      SetLowWrapped(registerFile[quot], size, q);
      SetSized(quot, size, resultQuot);
    }

    /** Store a bitwise or shift result; O is cleared, Z and S follow the result. */
    method StoreLogic(size: Size, dst: Option<Reg>, result: u64, setFlags: bool)
      requires Valid()
      modifies this`flags, registerFile
      ensures Valid() && registerFile[..] == SetOpt(old(registerFile[..]), dst, size, result)
      ensures FlagsOf(flags) ==
              if setFlags then SetZs(old(FlagsOf(flags)), size, result).(overflow := false) else old(FlagsOf(flags))
    {
      SetNullable(dst, size, result);
      if setFlags {
        flags := SetOverflow(flags, false);
        SetZeroSign(result, size);
      }
    }

    method Logic(op: LogicOp, size: Size, dst: Option<Reg>, lhs: Reg, rhs: AluRhs, setFlags: bool) returns (f: Flow)
      requires Valid()
      modifies this`flags, registerFile
      ensures Valid() && Did(f) == ExecLogic(old(State()), op, size, dst, lhs, rhs, setFlags)
    {
      var left := GetUnsigned(registerFile[lhs], size);
      var right: u64;
      match rhs {
        case AluReg(r) => right := GetUnsigned(registerFile[r], size);
        case AluImm(imm, factor, sx) =>
          Imm11Meaning(imm, factor, sx);
          right := Imm11WithShiftFactor(imm, factor, sx);
      }
      StoreLogic(size, dst, BitwiseWord(op, left, right), setFlags);
      f := Fallthrough;
    }

    method ShiftAmount(amount: ShiftRhs, size: Size) returns (k: u64)
      requires Valid()
      ensures k == Amount(registerFile[..], size, amount)
    {
      match amount
      case ShiftReg(r) => k := GetUnsigned(registerFile[r], size);
      case ShiftImm(imm) => k := imm;
    }

    /** As StoreLogic; a shift by a non-zero amount also sets C. */
    method StoreShift(size: Size, dst: Option<Reg>, result: u64, amount: u64, shiftedOut: bool, setFlags: bool)
      requires Valid()
      modifies this`flags, registerFile
      ensures Valid() && registerFile[..] == SetOpt(old(registerFile[..]), dst, size, result)
      ensures var f := old(FlagsOf(flags));
              FlagsOf(flags) ==
              if setFlags then SetZs(f, size, result).(overflow := false, carry := if amount == 0 then f.carry
                  else shiftedOut)
              else f
    {
      if setFlags && amount != 0 {
        flags := SetCarry(flags, shiftedOut);
      }
      StoreLogic(size, dst, result, setFlags);
    }

    method ShiftLeft(size: Size, dst: Option<Reg>, lhs: Reg, amount: ShiftRhs, setFlags: bool) returns (f: Flow)
      requires Valid()
      modifies this`flags, registerFile
      ensures Valid() && Did(f) == ExecShl(old(State()), size, dst, lhs, amount, setFlags)
    {
      var left := GetUnsigned(registerFile[lhs], size);
      var right := ShiftAmount(amount, size);
      var result, shiftedOut := ShiftOutLeft(left, right, size);
      StoreShift(size, dst, result, right, shiftedOut, setFlags);
      f := Fallthrough;
    }

    static method ShiftOutLeft(left: u64, right: u64, size: Size) returns (result: u64, shiftedOut: bool)
      ensures result == if right >= BitSize(size) then 0 else Wrap(left * Pow2(right))
      ensures right != 0 ==> shiftedOut == Bit(left, if right >= BitSize(size) then 0 else BitSize(size) - right)
    {
      var tooBig := right >= BitSize(size);
      result := if tooBig then 0 else Shl(left, right);
      shiftedOut := right != 0 && BitAsBool(left, if tooBig then 0 else BitSize(size) - right);
    }

    method ShiftRight(size: Size, dst: Option<Reg>, lhs: Reg, amount: ShiftRhs, signed: bool, setFlags: bool)
            returns (f: Flow)
      requires Valid()
      modifies this`flags, registerFile
      ensures Valid() && Did(f) == ExecShr(old(State()), size, dst, lhs, amount, signed, setFlags)
    {
      var left := GetUnsigned(registerFile[lhs], size);
      var right := ShiftAmount(amount, size);
      var result, shiftedOut := ShiftOutRight(left, right, size, signed);
      StoreShift(size, dst, result, right, shiftedOut, setFlags);
      f := Fallthrough;
    }

    static method ShiftOutRight(left: u64, right: u64, size: Size, signed: bool) returns (result: u64, shiftedOut: bool)
      requires left < Modulus(size)
      ensures result == ShrValue(size, left, right, signed)
      ensures right != 0 ==> shiftedOut == Bit(left, if right >= BitSize(size) then BitSize(size) - 1 else right - 1)
    {
      var tooBig := right >= BitSize(size);
      result := ShiftedRight(left, right, size, signed);
      shiftedOut := right != 0 && BitAsBool(left, if tooBig then MsbIndex(size) else right - 1);
    }

    /** Only S is set, from the result's most significant bit. */
    method SetSignOf(result: u64, size: Size)
      requires Valid()
      modifies this`flags
      ensures Valid() && FlagsOf(flags) == old(FlagsOf(flags)).(sign := result % Modulus(size) >= Modulus(size) / 2)
    {
      MsbIsSign(result, size);
      flags := SetSign(flags, BitAsBool(result, MsbIndex(size)));
    }

    method Rotate(size: Size, dst: Option<Reg>, lhs: Reg, amount: ShiftRhs, setFlags: bool) returns (f: Flow)
      requires Valid()
      modifies this`flags, registerFile
      ensures Valid() && Did(f) == ExecRot(old(State()), size, dst, lhs, amount, setFlags)
    {
      var left := GetUnsigned(registerFile[lhs], size);
      var right := ShiftAmount(amount, size);
      RotationFits(size, left, right);
      var result: u64 := Rotr(size, left, right);
      SetNullable(dst, size, result);
      if setFlags { SetSignOf(result, size); }
      f := Fallthrough;
    }

    method NegInto(size: Size, dst: Reg, x: u64, setFlags: bool)
      requires Valid()
      modifies this`flags, registerFile
      ensures Valid() && registerFile[..] == SetReg(old(registerFile[..]), dst, size, 0 - (x as int))
      ensures FlagsOf(flags) == if setFlags then SetZs(old(FlagsOf(flags)), size, 0 - (x as int))
              else old(FlagsOf(flags))
    {
      var result := WrappingSub(0, GetSigned(x, size));
      NegatedRegister(registerFile[..], dst, size, x);
      SetSized(dst, size, result);
      if setFlags {
        NegatedFlags(FlagsOf(flags), size, x);
        SetZeroSign(result, size);
      }
    }

    method Neg(size: Size, dst: Reg, src: Reg, setFlags: bool) returns (f: Flow)
      requires Valid()
      modifies this`flags, registerFile
      ensures Valid() && Did(f) == ExecNeg(old(State()), size, dst, src, setFlags)
    {
      NegInto(size, dst, registerFile[src], setFlags);
      f := Fallthrough;
    }

    method Bswap(size: Size, dst: Reg, src: Reg, setFlags: bool) returns (f: Flow)
      requires Valid()
      modifies this`flags, registerFile
      ensures Valid() && Did(f) == ExecBswap(old(State()), size, dst, src, setFlags)
    {
      var operand := GetUnsigned(registerFile[src], size);
      ReversedLow(registerFile[src], size);
      var result: u64 := Reversed(operand, ByteSize(size));
      SetSized(dst, size, result);
      if setFlags { SetSignOf(result, size); }
      f := Fallthrough;
    }

    // ---------------------------------------------- comparisons and jumps

    /** `compare!`: the flags a subtraction would set, tested without setting them. */
    method CompareOperands(cond: Condition, size: Size, lhs: Reg, rhs: Reg, borrow: bool) returns (b: bool)
      requires Valid()
      ensures b == M.Compare(State(), cond, size, lhs, rhs, borrow)
    {
      var borrowIn := if borrow && BitAsBool(flags, 0) then 1 else 0;
      b := CompareValues(cond, size, registerFile[lhs], registerFile[rhs], borrowIn);
    }

    static method CompareValues(cond: Condition, size: Size, x: u64, y: u64, borrowIn: nat) returns (b: bool)
      requires borrowIn <= 1
      ensures var out := SubOut(size, x, y, borrowIn); b == Test(cond, out.carry, out.zero, out.overflow, out.sign)
    {
      var left := GetSigned(x, size);
      var right := GetSigned(y, size);
      var result := WrappingSub(WrappingSub(left, right), borrowIn);
      DifferenceResult(size, left, right, x, y, borrowIn);
      b := TestDifference(cond, size, left, right, result, borrowIn);
    }

    static method TestDifference(cond: Condition, size: Size, lhs: u64, rhs: u64, result: u64, ghost bin: nat)
        returns (b: bool)
      requires bin <= 1 && result % Modulus(size) == SubOut(size, lhs, rhs, bin).value
      ensures var out := SubOut(size, lhs, rhs, bin); b == Test(cond, out.carry, out.zero, out.overflow, out.sign)
    {
      var msb := MsbIndex(size);
      DifferenceFlags(size, lhs, rhs, result, bin);
      var lhsMsb, rhsMsb, resMsb := BitAsBool(lhs, msb), BitAsBool(rhs, msb), BitAsBool(result, msb);
      var carry := (!lhsMsb && rhsMsb) || (resMsb && rhsMsb) || (resMsb && !lhsMsb);
      var zero := And(result, SizeMask(size)) == 0;
      var overflow := (lhsMsb && !rhsMsb && !resMsb) || (!lhsMsb && rhsMsb && resMsb);
      b := Test(cond, carry, zero, overflow, resMsb);
    }

    method Soc(cond: Condition, borrow: bool, size: Size, dst: Reg, lhs: Reg, rhs: Reg) returns (f: Flow)
      requires Valid()
      modifies registerFile
      ensures Did(f) == ExecSoc(old(State()), cond, borrow, size, dst, lhs, rhs)
    {
      var holds := CompareOperands(cond, size, lhs, rhs, borrow);
      SetSized(dst, size, if holds then 1 else 0);
      f := Fallthrough;
    }

    /** `test_condition` on the current flags. */
    method TestCondition(cond: Condition) returns (b: bool)
      requires Valid()
      ensures b == TestFlags(cond, FlagsOf(flags))
    {
      b := Test(cond, BitAsBool(flags, 0), BitAsBool(flags, 1), BitAsBool(flags, 2), BitAsBool(flags, 3));
    }

    method Sof(cond: Condition, size: Size, dst: Reg) returns (f: Flow)
      requires Valid()
      modifies registerFile
      ensures Did(f) == ExecSof(old(State()), cond, size, dst)
    {
      var holds := TestCondition(cond);
      SetSized(dst, size, if holds then 1 else 0);
      f := Fallthrough;
    }

    /** `do_jump!`. */
    method Jump(dest: u64) returns (f: Flow)
      requires Valid()
      modifies this, registerFile
      ensures Valid() && Did(f) == JumpTo(old(State()), dest)
    {
      LowTwoBits(dest);
      if And(dest, 3) != 0 {
        TakeException(InvalidOperation);
        return Returned;
      }
      instructionPointer := WrappingSub(dest, 4);
      f := Fallthrough;
    }

    method JumpWhen(when: Option<Condition>, dest: u64) returns (f: Flow)
      requires Valid()
      modifies this, registerFile
      ensures Valid() && Did(f) == if Taken(when, old(FlagsOf(flags))) then JumpTo(old(State()), dest)
              else Done(old(State()))
    {
      var shouldJump := true;
      if when.Some? {
        shouldJump := TestCondition(when.value);
      }
      if shouldJump {
        f := Jump(dest);
      } else {
        f := Fallthrough;
      }
    }

    method CallWhen(when: Option<Condition>, dest: u64) returns (f: Flow)
      requires Valid()
      modifies this, registerFile
      ensures Valid() && Did(f) == if Taken(when, old(FlagsOf(flags))) then CallTo(old(State()), dest)
              else Done(old(State()))
    {
      var shouldCall := true;
      if when.Some? {
        shouldCall := TestCondition(when.value);
      }
      if shouldCall {
        var linkAddr := WrappingAdd(instructionPointer, 4);
        f := Jump(dest);
        if f.Fallthrough? {
          SetRegister(LR, linkAddr);
        }
      } else {
        f := Fallthrough;
      }
    }

    method CompareAndJump(cond: Condition, size: Size, lhs: Reg, rhs: Reg, dest: u64) returns (f: Flow)
      requires Valid()
      modifies this, registerFile
      ensures Valid()
      ensures Did(f) == if M.Compare(old(State()), cond, size, lhs, rhs, false) then JumpTo(old(State()), dest)
              else Done(old(State()))
    {
      var holds := CompareOperands(cond, size, lhs, rhs, false);
      if holds {
        f := Jump(dest);
      } else {
        f := Fallthrough;
      }
    }

    /** A destination relative to the next instruction, in units of four bytes; the offset
        is a register or the sign-extended immediate. */
    method RelativeTo(offset: int) returns (dest: u64)
      ensures dest == Wrap(instructionPointer + 4 + 4 * offset)
    {
      var relBase := WrappingAdd(instructionPointer, 4);
      WrapSum(instructionPointer + 4, 4 * offset);
      ScaledOffset(relBase, offset);
      dest := WrappingAdd(relBase, Wrap(4 * offset));
    }

    method Target(t: JumpTarget) returns (dest: u64)
      requires Valid()
      ensures dest == TargetAddress(State(), t)
    {
      match t
      case JumpReg(r) => dest := RelativeTo(registerFile[r]);
      case JumpRel(offset) => dest := RelativeTo(offset);
    }

    method BranchDestination(t: BranchTarget) returns (dest: u64)
      requires Valid()
      ensures dest == BranchAddress(State(), t)
    {
      match t
      case BranchReg(r) => dest := RelativeTo(registerFile[r]);
      case BranchRel(offset) => dest := RelativeTo(offset);
    }

    method Ret() returns (f: Flow)
      requires Valid()
      modifies this`instructionPointer
      ensures Did(f) == ExecRet(old(State()))
    {
      var linkAddr := registerFile[LR];
      instructionPointer := WrappingSub(linkAddr, 4);
      f := Fallthrough;
    }

    method Eret() returns (f: Flow)
      requires Valid()
      modifies this, registerFile
      ensures Valid() && Did(f) == ExecEret(old(State()))
    {
      if BitAsBool(flags, 5) {
        TakeException(InvalidOperation);
        return Returned;
      }
      instructionPointer := WrappingSub(elr, 4);
      flags := eflags;
      SetRegister(SP, esp);
      f := Fallthrough;
    }

    method Raise(e: Exception) returns (f: Flow)
      requires Valid()
      modifies this, registerFile
      ensures Valid() && Did(f) == M.Raise(old(State()), e)
    {
      TakeException(e);
      f := Returned;
    }

    method Exc(val: u16) returns (f: Flow)
      requires Valid()
      modifies this, registerFile
      ensures Valid() && Did(f) == ExecExc(old(State()), val)
    {
      instructionPointer := WrappingAdd(instructionPointer, 4);
      TakeException(User(val));
      f := Returned;
    }

    // --------------------------------------------------- machine registers

    method ReadMachineRegister(m: MReg) returns (v: u64)
      requires Valid() && m != MConsole
      ensures v == ReadMReg(State(), m)
    {
      FlagsRoundTrip(flags);
      FlagsRoundTrip(eflags);
      match m
      case MFlags => v := flags;
      case MElr => v := elr;
      case MEsp => v := esp;
      case MEflags => v := eflags;
      case MEinfo => v := einfo;
      case MEaddr => v := eaddr;
      case MEvtable => v := evtableAddr;
      case MEctable => v := ectableAddr;
    }

    method Ldm(dst: Reg, id: imm22) returns (f: Flow)
      requires Valid()
      modifies this, registerFile
      ensures Valid() && Did(f) == ExecLdm(old(State()), dst, id)
    {
      var m := MRegOf(id);
      if m.None? || !Accessible(m.value, BitAsBool(flags, 5), false) {
        f := Raise(InvalidOperation);
        return;
      }
      var v := ReadMachineRegister(m.value);
      SetRegister(dst, v);
      f := Fallthrough;
    }

    method Stm(id: imm22, src: Reg) returns (f: Flow)
      requires Valid()
      modifies this, registerFile
      ensures Valid() && Did(f) == ExecStm(old(State()), id, src)
    {
      var m := MRegOf(id);
      var v := registerFile[src];
      if m.None? || !Accessible(m.value, BitAsBool(flags, 5), true) {
        f := Raise(InvalidOperation);
        return;
      }
      match m.value
      case MFlags => f := StoreFlags(v);
      case MElr => f := StoreElr(v);
      case MEsp => esp := v; f := Fallthrough;
      case MEflags => f := StoreEflags(v);
      case MEvtable => f := StoreEvtable(v);
      case MEctable => f := StoreEctable(v);
      case MConsole => console := console + [v % 0x100]; f := Fallthrough;
      case MEinfo => f := Panicked;
      case MEaddr => f := Panicked;
    }

    method StoreFlags(v: u64) returns (f: Flow)
      requires Valid()
      modifies this, registerFile
      ensures Valid() && Did(f) == M.StoreFlags(old(State()), v)
    {
      UndefinedBits(v);
      if And(v, Not(0x3f)) != 0 {
        f := Raise(InvalidOperation);
      } else {
        flags := v;
        f := Fallthrough;
      }
    }

    method StoreEflags(v: u64) returns (f: Flow)
      requires Valid()
      modifies this, registerFile
      ensures Valid() && Did(f) == M.StoreEflags(old(State()), v)
    {
      UndefinedBits(v);
      if And(v, Not(0x3f)) != 0 {
        f := Raise(InvalidOperation);
      } else {
        eflags := v;
        f := Fallthrough;
      }
    }

    method StoreElr(v: u64) returns (f: Flow)
      requires Valid()
      modifies this, registerFile
      ensures Valid() && Did(f) == M.StoreElr(old(State()), v)
    {
      LowTwoBits(v);
      if And(v, 3) == 0 {
        elr := v;
        f := Fallthrough;
      } else {
        f := Raise(InvalidOperation);
      }
    }

    method StoreEvtable(v: u64) returns (f: Flow)
      requires Valid()
      modifies this, registerFile
      ensures Valid() && Did(f) == M.StoreEvtable(old(State()), v)
    {
      LowTwoBits(v);
      if And(v, 3) == 0 {
        evtableAddr := v;
        f := Fallthrough;
      } else {
        f := Raise(InvalidOperation);
      }
    }

    method StoreEctable(v: u64) returns (f: Flow)
      requires Valid()
      modifies this, registerFile
      ensures Valid() && Did(f) == M.StoreEctable(old(State()), v)
    {
      RangeIsFits(v, ECTABLE_SIZE);
      if !InMemory(v, Wrap(v + ECTABLE_SIZE)) {
        f := Fault(v, ECTABLE_SIZE, false);
        return;
      }
      var pl0 := LoadEntries(v);
      var pl1 := LoadEntries(v + 192);
      var ok0 := ValidateEntries(pl0);
      var ok1 := ValidateEntries(pl1);
      if !ok0 || !ok1 {
        f := Raise(InvalidOperation);
        return;
      }
      ectableAddr := v;
      ectable := Ectable(pl0, pl1);
      f := Fallthrough;
    }

    /** Eight consecutive table entries of three words each. */
    method LoadEntries(a: u64) returns (e: Entries)
      requires Valid() && Fits(memory[..], a, 192)
      ensures e == ReadEntries(memory[..], a)
    {
      var loaded: seq<Entry> := [];
      for i := 0 to 8
        invariant |loaded| == i
        invariant forall k :: 0 <= k < i ==> loaded[k] == ReadEntry(memory[..], a + 24 * k)
      {
        var flagsWord := ReadSized(a + 24 * i, Word);
        var stackPointer := ReadSized(a + 24 * i + 8, Word);
        var stackSize := ReadSized(a + 24 * i + 16, Word);
        loaded := loaded + [Entry(flagsWord, stackPointer, stackSize)];
      }
      e := loaded;
      assert e == ReadEntries(memory[..], a);
    }

    /** `all(validate)`: no undefined flag bit is set in any entry. */
    static method ValidateEntries(e: Entries) returns (ok: bool)
      ensures ok == ValidEntries(e)
    {
      ok := true;
      for i := 0 to 8
        invariant ok == forall k :: 0 <= k < i ==> e[k].flags < 2
      {
        UndefinedEntryBits(e[i].flags);
        ok := ok && And(e[i].flags, Not(1)) == 0;
      }
    }

    // -------------------------------------------------------------- cycle

    /** One arm of the generated match: its mask test and its operands. */
    static method TryArm(a: D.Arm, encoded: u32) returns (hit: bool, d: D.DecodeResult)
      ensures hit == D.ArmMatches(a, encoded)
      ensures hit ==> d == D.Build(a, D.ArmFields(a, encoded))
    {
      D.TemplateLength(a);
      var mask, value, fields := DecodeLoop(D.ArmTemplate(a), encoded);
      hit := And(encoded, mask) == value;
      var env := (c: char) => if c in fields then fields[c].0 else 0;
      SameFields(a, encoded, fields, env);
      d := D.Build(a, env);
    }

    /** The generated match: arms are tried in source order. */
    static method DecodeWord(encoded: u32) returns (d: D.DecodeResult)
      ensures d == D.Decode(encoded)
    {
      DecodeInOrder(encoded);
      var arms := D.SourceOrder();
      while |arms| > 0
        invariant D.FirstMatch(arms, encoded) == D.Decode(encoded)
        decreases |arms|
      {
        var hit, result := TryArm(arms[0], encoded);
        if hit {
          return result;
        }
        arms := arms[1..];
      }
      d := D.Unmatched;
    }

    method ExecuteMemory(i: Instr) returns (f: Flow)
      requires Valid() && IsMemoryInstr(i)
      modifies this, memory, registerFile
      ensures Valid() && Did(f) == Exec(old(State()), i)
    {
      match i
      case Pushs(size, src) => f := Pushs(size, src);
      case Pushp(size, src1, src2) => f := Pushp(size, src1, src2);
      case Pops(size, dst) => f := Pops(size, dst);
      case Popp(size, dst1, dst2) => f := Popp(size, dst1, dst2);
      case Lds(size, d, addr) => f := Lds(size, d, addr);
      case Ldp(size, d1, d2, addr) => f := Ldp(size, d1, d2, addr);
      case Sts(size, addr, src) => f := Sts(size, addr, src);
      case Stp(size, addr, src1, src2) => f := Stp(size, addr, src1, src2);
      case Ldi(d, imm, shift, clear) => f := Ldi(d, imm, shift, clear);
      case Ldr(d, offset) => f := Ldr(d, offset);
      case Copy(size, d, src) => f := Copy(size, d, src);
    }

    method ExecuteAlu(i: Instr) returns (f: Flow)
      requires Valid() && IsAluInstr(i)
      modifies this, registerFile
      ensures Valid() && Did(f) == Exec(old(State()), i)
    {
      if IsNumeric(i) { f := ExecuteNumeric(i); } else { f := ExecuteBitwise(i); }
    }

    method ExecuteNumeric(i: Instr) returns (f: Flow)
      requires Valid() && IsNumeric(i)
      modifies this, registerFile
      ensures Valid() && Did(f) == Exec(old(State()), i)
    {
      match i
      case Add(size, dst, lhs, rhs, carry, sf) => f := Add(size, dst, lhs, rhs, carry, sf);
      case Sub(size, dst, lhs, rhs, borrow, sf) => f := Sub(size, dst, lhs, rhs, borrow, sf);
      case Mul(srcSize, dstSize, d, lhs, rhs, signed, sf) => f := Mul(srcSize, dstSize, d, lhs, rhs, signed, sf);
      case Div(size, quot, rem, lhs, rhs, signed, sf) => f := Div(size, quot, rem, lhs, rhs, signed, sf);
      case Neg(size, d, src, sf) => f := Neg(size, d, src, sf);
      case Soc(c, borrow, size, d, lhs, rhs) => f := Soc(c, borrow, size, d, lhs, rhs);
      case Sof(c, size, d) => f := Sof(c, size, d);
    }

    method ExecuteBitwise(i: Instr) returns (f: Flow)
      requires Valid() && IsAluInstr(i) && !IsNumeric(i)
      modifies this, registerFile
      ensures Valid() && Did(f) == Exec(old(State()), i)
    {
      match i
      case Logic(op, size, dst, lhs, rhs, sf) => f := Logic(op, size, dst, lhs, rhs, sf);
      case ShiftLeft(size, dst, lhs, amount, sf) => f := ShiftLeft(size, dst, lhs, amount, sf);
      case ShiftRight(size, dst, lhs, amount, signed, sf) => f := ShiftRight(size, dst, lhs, amount, signed, sf);
      case Rotate(size, dst, lhs, amount, sf) => f := Rotate(size, dst, lhs, amount, sf);
      case Bswap(size, d, src, sf) => f := Bswap(size, d, src, sf);
    }

    method ExecuteControl(i: Instr) returns (f: Flow)
      requires Valid() && !IsMemoryInstr(i) && !IsAluInstr(i)
      modifies this, registerFile
      ensures Valid() && Did(f) == Exec(old(State()), i)
    {
      match i
      case Jmpa(c, addr) => f := JumpWhen(c, registerFile[addr]);
      case Jmpr(c, t) =>
        var dest := Target(t);
        f := JumpWhen(c, dest);
      case Cjmpa(c, size, addr, lhs, rhs) => f := CompareAndJump(c, size, lhs, rhs, registerFile[addr]);
      case Cjmpr(c, size, t, lhs, rhs) =>
        var dest := BranchDestination(t);
        f := CompareAndJump(c, size, lhs, rhs, dest);
      case Calla(c, addr) => f := CallWhen(c, registerFile[addr]);
      case Callr(c, t) =>
        var dest := Target(t);
        f := CallWhen(c, dest);
      case Ret => f := Ret();
      case Eret => f := Eret();
      case Udf => f := Raise(InvalidInstruction);
      case Dbg => f := Raise(Debug);
      case Exc(val) => f := Exc(val);
      case Nop => f := Fallthrough;
      case Ldm(d, mreg) => f := Ldm(d, mreg);
      case Stm(mreg, src) => f := Stm(mreg, src);
    }

    method Execute(i: Instr) returns (f: Flow)
      requires Valid()
      modifies this, memory, registerFile
      ensures Valid() && Did(f) == Exec(old(State()), i)
    {
      if IsMemoryInstr(i) {
        f := ExecuteMemory(i);
      } else if IsAluInstr(i) {
        f := ExecuteAlu(i);
      } else {
        f := ExecuteControl(i);
      }
    }

    method FetchAndDecode() returns (d: D.DecodeResult)
      requires Valid() && Fits(memory[..], instructionPointer, 4)
      ensures d == D.Decode(FetchWord(State()))
    {
      WordRange(memory[..], instructionPointer);
      var encoded := ReadBytes(instructionPointer, 4);
      d := DecodeWord(encoded);
    }

    method Perform(d: D.DecodeResult) returns (f: Flow)
      requires Valid()
      modifies this, memory, registerFile
      ensures Valid() && Did(f) == Meaning(old(State()), d)
    {
      match d {
        case Unmatched =>
          TakeException(InvalidInstruction);
          f := Fallthrough;
        case BadField =>
          f := Panicked;
        case Decoded(i) =>
          f := Execute(i);
      }
    }

    /** The body, and the increment it falls through to. */
    method Retire(d: D.DecodeResult) returns (running: bool)
      requires Valid()
      modifies this, memory, registerFile
      ensures Valid()
      ensures After(Meaning(old(State()), d)) == if running then Next(State()) else Panic
    {
      var f := Perform(d);
      running := MoveOn(f);
    }

    method MoveOn(f: Flow) returns (running: bool)
      requires Valid()
      modifies this
      ensures Valid()
      ensures After(old(Did(f))) == if running then Next(State()) else Panic
    {
      if f.Fallthrough? {
        instructionPointer := WrappingAdd(instructionPointer, 4);
      }
      running := !f.Panicked?;
    }

    method ExecuteFetched() returns (running: bool)
      requires Valid() && Fits(memory[..], instructionPointer, 4)
      modifies this, memory, registerFile
      ensures Valid()
      ensures Step(D.Decode, old(State())) == if running then Next(State()) else Panic
    {
      var d := FetchAndDecode();
      StepByMeaning(D.Decode, State(), d);
      running := Retire(d);
    }

    method FetchFault()
      requires Valid() && !Fits(memory[..], instructionPointer, 4)
      modifies this, registerFile
      ensures Valid() && Step(D.Decode, old(State())) == Next(State())
    {
      TakeException(InstructionLoadError);
    }

    /** One cycle; the result says whether the emulator is still running. */
    method ExecuteOne() returns (running: bool)
      requires Valid()
      modifies this, memory, registerFile
      ensures Valid()
      ensures Step(D.Decode, old(State())) == if running then Next(State()) else Panic
    {
      RangeIsFits(instructionPointer, 4);
      if !InMemory(instructionPointer, Wrap(instructionPointer + 4)) {
        FetchFault();
        running := true;
      } else {
        running := ExecuteFetched();
      }
    }
  }

  predicate IsMemoryInstr(i: Instr) {
    i.Pushs? || i.Pushp? || i.Pops? || i.Popp? || i.Lds? || i.Ldp? || i.Sts? || i.Stp? || i.Ldi? || i.Ldr? || i.Copy?
  }

  predicate IsAluInstr(i: Instr) {
    i.Add? || i.Sub? || i.Mul? || i.Div? || i.Logic? || i.ShiftLeft? || i.ShiftRight? || i.Rotate? || i.Neg?
        || i.Bswap? ||
    i.Soc? || i.Sof?
  }

  predicate IsNumeric(i: Instr) {
    i.Add? || i.Sub? || i.Mul? || i.Div? || i.Neg? || i.Soc? || i.Sof?
  }

  lemma DecodeInOrder(w: u32)
    ensures D.FirstMatch(D.SourceOrder(), w) == D.Decode(w)
  {
    forall a: D.Arm ensures a in D.SourceOrder() {
      D.SourceOrderComplete(a);
    }
    D.OrderIrrelevant(D.SourceOrder(), w);
  }

  /** The fields gathered by the loop build the same instruction as the decoder's. */
  lemma SameFields(a: D.Arm, w: u32, fields: map<char, (u64, nat)>, env: Env)
    requires FieldsUpTo(fields, D.ArmTemplate(a), w, |D.ArmTemplate(a)|)
    requires forall c: char :: env(c) == if c in fields then fields[c].0 else 0
    ensures D.Build(a, env) == D.Build(a, D.ArmFields(a, w))
  {
    var t := D.ArmTemplate(a);
    D.TemplateLength(a);
    forall c: char | IsVariable(c) ensures env(c) == D.ArmFields(a, w)(c) {
      GatherEmpty(t, w, c, |t|);
    }
    E.SameEverywhere(a, env, D.ArmFields(a, w));
    E.BuildAgrees(a, env, D.ArmFields(a, w));
  }

  lemma ScaledOffset(base: u64, offset: int)
    ensures WrappingAdd(base, Wrap(4 * offset)) == Wrap(base + 4 * offset)
  {
    ModShift(base + Wrap(4 * offset), 4 * offset / W64, W64);
  }

  lemma DifferenceFlags(size: Size, lhs: u64, rhs: u64, result: u64, bin: nat)
    requires bin <= 1 && result % Modulus(size) == SubOut(size, lhs, rhs, bin).value
    ensures var (l, r, s) := (Bit(lhs, MsbIndex(size)), Bit(rhs, MsbIndex(size)), Bit(result, MsbIndex(size)));
            var out := SubOut(size, lhs, rhs, bin);
            && out.carry == SubBorrow(l, r, s) && out.overflow == SubOverflow(l, r, s)
            && out.sign == s && out.zero == (And(result, SizeMask(size)) == 0)
  {
    MsbIsSign(lhs, size);
    MsbIsSign(rhs, size);
    MsbIsSign(result, size);
    MaskIsMod(result, size);
    EvenModulus(size);
    ModRange(lhs, Modulus(size));
    ModRange(rhs, Modulus(size));
    SubFormulas(Modulus(size), lhs % Modulus(size), rhs % Modulus(size), bin);
  }

  lemma SumFlags(size: Size, lhs: u64, rhs: u64, result: u64, cin: nat)
    requires cin <= 1 && result % Modulus(size) == AddOut(size, lhs, rhs, cin).value
    ensures var (l, r, s) := (Bit(lhs, MsbIndex(size)), Bit(rhs, MsbIndex(size)), Bit(result, MsbIndex(size)));
            var out := AddOut(size, lhs, rhs, cin);
            && out.carry == AddCarry(l, r, s) && out.overflow == AddOverflow(l, r, s)
            && out.sign == s && out.zero == (And(result, SizeMask(size)) == 0)
  {
    MsbIsSign(lhs, size);
    MsbIsSign(rhs, size);
    MsbIsSign(result, size);
    MaskIsMod(result, size);
    EvenModulus(size);
    ModRange(lhs, Modulus(size));
    ModRange(rhs, Modulus(size));
    AddFormulas(Modulus(size), lhs % Modulus(size), rhs % Modulus(size), cin);
  }

  /** `(x & 3) != 0` is the alignment test. */
  lemma LowTwoBits(x: u64)
    ensures And(x, 3) == x % 4
  {
    assert Pow2(2) == 4;
    AndLowMask(x, 2);
  }

  /** `v & !0x3f` is non-zero exactly when a bit above the six flags is set. */
  lemma UndefinedBits(v: u64)
    ensures (And(v, Not(0x3f)) != 0) == (v >= 64)
  {
    Pow2Values();
    AndHighMask(v, 6);
  }

  lemma UndefinedEntryBits(v: u64)
    ensures (And(v, Not(1)) == 0) == (v < 2)
  {
    Pow2Values();
    AndHighMask(v, 1);
  }

  lemma EvenModulus(size: Size)
    ensures Modulus(size) % 2 == 0
  {
  }

  /** A 64-bit sum of sign-extended operands has the narrow sum as its low part. */
  lemma SumResult(size: Size, left: u64, right: u64, a: u64, b: u64, c: nat)
    requires c <= 1 && left % Modulus(size) == a % Modulus(size) && right % Modulus(size) == b % Modulus(size)
    ensures AddOut(size, left, right, c) == AddOut(size, a, b, c)
    ensures WrappingAdd(WrappingAdd(left, right), c) % Modulus(size) == AddOut(size, a, b, c).value
  {
    LowOfSum(size, left, right, c);
  }

  lemma DifferenceResult(size: Size, left: u64, right: u64, a: u64, b: u64, c: nat)
    requires c <= 1 && left % Modulus(size) == a % Modulus(size) && right % Modulus(size) == b % Modulus(size)
    ensures SubOut(size, left, right, c) == SubOut(size, a, b, c)
    ensures WrappingSub(WrappingSub(left, right), c) % Modulus(size) == SubOut(size, a, b, c).value
  {
    LowOfSum(size, left, right, c);
  }

  lemma SetLowResult(size: Size, dst: Option<Reg>, regs: Regs, v: int, w: int)
    requires v % Modulus(size) == w % Modulus(size) || v % Modulus(size) == w
    ensures SetOpt(regs, dst, size, v) == SetOpt(regs, dst, size, w)
  {
    if dst.Some? {
      SetLowTwice(regs[dst.value], size, v);
      SetLowTwice(regs[dst.value], size, w);
    }
  }
}
