/**
 What the machine does, stated in unbounded integers.

 `Exec` gives the meaning of one instruction and `Step` of one fetch-decode-execute
 cycle.  Widths, carries and overflows are stated as the arithmetic facts they stand
 for; the emulator's masks, most-significant-bit formulas and packed flag words are
 in module Vm, whose methods are proved to compute exactly these functions.
 Arithmetic wraps modulo 2^64 as in a release build.
 */
module Machine {
  import opened Bits
  import opened Memory
  import opened Isa
  import D = Decoder

  // ---------------------------------------------------------------- state

  type Regs = r: seq<u64> | |r| == 16 witness seq(16, i => 0)

  datatype Flags = Flags(carry: bool, zero: bool, overflow: bool, sign: bool, enabled: bool, pl1: bool)

  /** One entry of the exception configuration table. */
  datatype Entry = Entry(flags: u64, stackPointer: u64, stackSize: u64)

  type Entries = e: seq<Entry> | |e| == 8 witness seq(8, i => Entry(0, 0, 0))

  datatype Ectable = Ectable(pl0: Entries, pl1: Entries)

  datatype State = State(
    mem: Memory, regs: Regs, flags: Flags, ip: u64,
    elr: u64, esp: u64, eflags: Flags, einfo: u64, eaddr: u64,
    evtable: u64, ectableAddr: u64, ectable: Ectable,
    console: seq<byte>)

  const NO_FLAGS := Flags(false, false, false, false, false, false)

  /** A machine just created with n bytes of zeroed memory. */
  function Reset(n: u64): State {
    var empty := seq(8, i => Entry(0, 0, 0));
    State(seq(n, i => 0), seq(16, i => 0), NO_FLAGS, 0x400, 0, 0, NO_FLAGS, 0, 0, 0, 0, Ectable(empty, empty), [])
  }

  datatype Exception =
    | Unknown | InvalidInstruction | Debug | User(val: u16) | InvalidOperation
    | InstructionLoadError | DataLoadError(address: u64, write: bool, byteSize: u16) | Interrupt(info: u64)

  /** The outcome of an instruction body: fall through to the next instruction, return
      from the middle with an exception taken, or panic. */
  datatype Effect = Done(s: State) | Raised(s: State) | Abort

  datatype Outcome = Next(s: State) | Panic

  // ----------------------------------------------------------- arithmetic

  function Wrap(x: int): u64 { x % W64 }

  lemma WrapSum(x: int, y: int)
    ensures Wrap(Wrap(x) + y) == Wrap(x + y)
  {
  }

  /** A word is its own residue. */
  lemma Small64(x: u64)
    ensures x % W64 == x && Wrap(x) == x
  {
  }

  /** The signed reading of a residue modulo m. */
  function Centre(x: int, m: int): int {
    if x < m / 2 then x else x - m
  }

  /** The signed value of the low part of x below modulus m. */
  function Signed(x: int, m: int): int
    requires m > 0
  {
    Centre(x % m, m)
  }

  /** Overwrite the low part of a register, keeping the rest. */
  function SetLow(was: u64, size: Size, v: int): u64 {
    match size
    case Byte => was / 0x100 * 0x100 + v % 0x100
    case DoubleByte => was / 0x1_0000 * 0x1_0000 + v % 0x1_0000
    case QuadByte => was / 0x1_0000_0000 * 0x1_0000_0000 + v % 0x1_0000_0000
    case Word => v % 0x1_0000_0000_0000_0000
  }

  /** The low part is the value's, the rest is as before. */
  lemma SetLowParts(was: u64, size: Size, v: int)
    ensures SetLow(was, size, v) % Modulus(size) == v % Modulus(size)
    ensures SetLow(was, size, v) / Modulus(size) == was / Modulus(size)
  {
    match size
    case Byte => DivisionUnique(SetLow(was, size, v), 0x100, was / 0x100, v % 0x100);
    case DoubleByte => DivisionUnique(SetLow(was, size, v), 0x1_0000, was / 0x1_0000, v % 0x1_0000);
    case QuadByte => DivisionUnique(SetLow(was, size, v), 0x1_0000_0000, was / 0x1_0000_0000, v % 0x1_0000_0000);
    case Word => DivisionUnique(SetLow(was, size, v), W64, 0, v % W64);
  }

  function SetReg(regs: Regs, r: Reg, size: Size, v: int): Regs {
    regs[r := SetLow(regs[r], size, v)]
  }

  function SetOpt(regs: Regs, r: Option<Reg>, size: Size, v: int): Regs {
    match r
    case Some(x) => SetReg(regs, x, size, v)
    case None => regs
  }

  function Low(regs: Regs, r: Reg, size: Size): u64 {
    regs[r] % Modulus(size)
  }

  function LowOpt(regs: Regs, r: Option<Reg>, size: Size): u64 {
    match r
    case Some(x) => Low(regs, x, size)
    case None => 0
  }

  /** A result of the given width with the four arithmetic flags. */
  datatype AluOut = AluOut(value: nat, carry: bool, zero: bool, overflow: bool, sign: bool)

  /** Addition of residues modulo m: carry iff the unsigned sum does not fit, overflow iff
      the signed sum does not. */
  function AddMod(m: int, x: int, y: int, cin: nat): AluOut
    requires m > 0
  {
    var sum := x + y + cin;
    var ssum := Centre(x, m) + Centre(y, m) + cin;
    AluOut(sum % m, sum >= m, sum % m == 0, !(-(m / 2) <= ssum < m / 2), sum % m >= m / 2)
  }

  /** Subtraction of residues modulo m: carry iff the unsigned subtraction borrows, overflow
      iff the signed difference does not fit. */
  function SubMod(m: int, x: int, y: int, bin: nat): AluOut
    requires m > 0
  {
    var diff := x - y - bin;
    var sdiff := Centre(x, m) - Centre(y, m) - bin;
    AluOut(diff % m, diff < 0, diff % m == 0, !(-(m / 2) <= sdiff < m / 2), diff % m >= m / 2)
  }

  function AddOut(size: Size, a: int, b: int, cin: nat): AluOut {
    AddMod(Modulus(size), a % Modulus(size), b % Modulus(size), cin)
  }

  function SubOut(size: Size, a: int, b: int, bin: nat): AluOut {
    SubMod(Modulus(size), a % Modulus(size), b % Modulus(size), bin)
  }

  function SetAlu(f: Flags, out: AluOut): Flags {
    f.(carry := out.carry, zero := out.zero, overflow := out.overflow, sign := out.sign)
  }

  function SetZs(f: Flags, size: Size, v: int): Flags {
    var m := Modulus(size);
    f.(zero := v % m == 0, sign := v % m >= m / 2)
  }

  predicate Test(c: Condition, carry: bool, zero: bool, overflow: bool, sign: bool) {
    match c
    case C => carry
    case NC => !carry
    case Z => zero
    case NZ => !zero
    case O => overflow
    case NO => !overflow
    case S => sign
    case NS => !sign
    case L => sign != overflow
    case NL => sign == overflow
  }

  predicate TestFlags(c: Condition, f: Flags) {
    Test(c, f.carry, f.zero, f.overflow, f.sign)
  }

  predicate Taken(c: Option<Condition>, f: Flags) {
    c.None? || TestFlags(c.value, f)
  }

  predicate Compare(s: State, c: Condition, size: Size, lhs: Reg, rhs: Reg, borrow: bool) {
    var out := SubOut(size, s.regs[lhs], s.regs[rhs], B(borrow && s.flags.carry));
    Test(c, out.carry, out.zero, out.overflow, out.sign)
  }

  /** An 11-bit immediate moved into its place: factors 0 to 5 multiply by 2^(11 * factor),
      after sign extension when asked for.  Factors 6 and 7 shift by 66 and 77 bits, which
      a release build reduces to 2 and 13, and never extend the sign. */
  function ImmValue(imm: imm11, factor: imm3, signExtend: bool): u64 {
    if factor == 6 then Wrap(imm * 4)
    else if factor == 7 then Wrap(imm * 0x2000)
    else if signExtend then Wrap(Signed(imm, 0x800) * Pow2(11 * factor))
    else Wrap(imm * Pow2(11 * factor))
  }

  function RhsValue(regs: Regs, rhs: AluRhs): u64 {
    match rhs
    case AluReg(r) => regs[r]
    case AluImm(imm, factor, sx) => ImmValue(imm, factor, sx)
  }

  /** Division truncated toward zero, and its remainder. */
  function TruncDiv(a: int, b: int): int
    requires b != 0
  {
    if a >= 0 then a / b else -((-a) / b)
  }

  function TruncRem(a: int, b: int): int
    requires b != 0
  {
    a - b * TruncDiv(a, b)
  }

  /** Rotation right by k of an operand of the given width. */
  function Rotr(size: Size, a: nat, k: nat): nat {
    var r := k % BitSize(size);
    ShrinkDiv(a, Pow2(r));
    MulMono(a % Pow2(r), 0, Pow2(BitSize(size) - r));
    a / Pow2(r) + (a % Pow2(r)) * Pow2(BitSize(size) - r)
  }

  /** The n low bytes of v in the opposite order. */
  function Reversed(v: nat, n: nat): nat
    decreases n, v
  {
    if n == 0 then 0 else v % 0x100 * Pow2(8 * (n - 1)) + Reversed(v / 0x100, n - 1)
  }

  // ----------------------------------------------------------- exceptions

  function ExceptionId(e: Exception): (r: nat)
    ensures r < 8
  {
    match e
    case Unknown => 0
    case InvalidInstruction => 1
    case Debug => 2
    case User(_) => 3
    case InvalidOperation => 4
    case InstructionLoadError => 5
    case DataLoadError(_, _, _) => 6
    case Interrupt(_) => 7
  }

  /** The exception information word: type in bits 2-0, details above. */
  function ExceptionInfo(e: Exception): u64 {
    match e
    case User(val) => 3 + 8 * val
    case DataLoadError(_, write, size) => 6 + 8 * B(write) + 16 * size
    case Interrupt(info) => InterruptInfo(info)
    case _ => ExceptionId(e)
  }

  function InterruptInfo(info: u64): u64 {
    Wrap(7 + 8 * info)
  }

  function EntryFor(t: Ectable, f: Flags, e: Exception): Entry {
    if f.pl1 then t.pl1[ExceptionId(e)] else t.pl0[ExceptionId(e)]
  }

  /** The stack pointer a handler starts with: unchanged, unless the table entry asks for
      its own stack and the current one lies outside it; then the top of that stack. */
  function EntrySp(entry: Entry, sp: u64): u64 {
    var top := Wrap(entry.stackPointer + entry.stackSize);
    if entry.flags % 2 == 1 && !(entry.stackPointer <= sp <= top) then top else sp
  }

  function HandlerSp(t: Ectable, f: Flags, sp: u64, e: Exception): u64 {
    EntrySp(EntryFor(t, f, e), sp)
  }

  function VectorAddress(evtable: u64, f: Flags, e: Exception): u64 {
    Wrap(evtable + 256 * B(f.pl1) + 32 * ExceptionId(e))
  }

  function TakeException(s: State, e: Exception): State {
    s.(eflags := s.flags,
       elr := s.ip,
       flags := s.flags.(enabled := false, pl1 := false),
       esp := s.regs[SP],
       einfo := ExceptionInfo(e),
       eaddr := if e.DataLoadError? then e.address else 0,
       regs := s.regs[SP := HandlerSp(s.ectable, s.flags, s.regs[SP], e)],
       ip := VectorAddress(s.evtable, s.flags, e))
  }

  function Raise(s: State, e: Exception): Effect {
    Raised(TakeException(s, e))
  }

  function Fault(s: State, a: u64, n: u16, write: bool): Effect {
    Raise(s, DataLoadError(a, write, n))
  }

  // ------------------------------------------------- instruction meanings

  function ExecPushs(s: State, size: Size, src: Option<Reg>): Effect {
    var n := ByteSize(size);
    var sp := Wrap(s.regs[SP] - n);
    if !Fits(s.mem, sp, n) then Fault(s, sp, n, true)
    else Done(s.(mem := WriteLe(s.mem, sp, n, LowOpt(s.regs, src, size)), regs := s.regs[SP := sp]))
  }

  /** A pair of values stored at sp, which becomes the stack pointer. */
  function PushTwo(s: State, sp: u64, n: nat, v1: nat, v2: nat): Effect
    requires n <= 8
  {
    if !Fits(s.mem, sp, 2 * n) then Fault(s, sp, 2 * n, true)
    else Done(s.(mem := WriteLe(WriteLe(s.mem, sp, n, v1), sp + n, n, v2), regs := s.regs[SP := sp]))
  }

  function ExecPushp(s: State, size: Size, src1: Option<Reg>, src2: Option<Reg>): Effect {
    var n := ByteSize(size);
    PushTwo(s, Wrap(s.regs[SP] - 2 * n), n, LowOpt(s.regs, src1, size), LowOpt(s.regs, src2, size))
  }

  function ExecPops(s: State, size: Size, dst: Option<Reg>): Effect {
    var n := ByteSize(size);
    var sp := s.regs[SP];
    if !Fits(s.mem, sp, n) then Fault(s, sp, n, false)
    else Done(s.(regs := SetOpt(s.regs, dst, size, ReadLe(s.mem, sp, n))[SP := Wrap(sp + n)]))
  }

  function ExecPopp(s: State, size: Size, dst1: Option<Reg>, dst2: Option<Reg>): Effect {
    var n := ByteSize(size);
    var sp := s.regs[SP];
    if !Fits(s.mem, sp, 2 * n) then Fault(s, sp, 2 * n, false)
    else
      var r := SetOpt(s.regs, dst1, size, ReadLe(s.mem, sp, n));
      Done(s.(regs := SetOpt(r, dst2, size, ReadLe(s.mem, sp + n, n))[SP := Wrap(sp + 2 * n)]))
  }

  function ExecLds(s: State, size: Size, d: Reg, addr: Reg): Effect {
    var n, a := ByteSize(size), s.regs[addr];
    if !Fits(s.mem, a, n) then Fault(s, a, n, false)
    else Done(s.(regs := SetReg(s.regs, d, size, ReadLe(s.mem, a, n))))
  }

  function ExecLdp(s: State, size: Size, d1: Reg, d2: Reg, addr: Reg): Effect {
    var n, a := ByteSize(size), s.regs[addr];
    if !Fits(s.mem, a, 2 * n) then Fault(s, a, 2 * n, false)
    else
      var r := SetReg(s.regs, d1, size, ReadLe(s.mem, a, n));
      Done(s.(regs := SetReg(r, d2, size, ReadLe(s.mem, a + n, n))))
  }

  function ExecSts(s: State, size: Size, addr: Reg, src: Reg): Effect {
    var n, a := ByteSize(size), s.regs[addr];
    if !Fits(s.mem, a, n) then Fault(s, a, n, true)
    else Done(s.(mem := WriteLe(s.mem, a, n, s.regs[src])))
  }

  /** The store of a pair asks for the bytes of one element and then splits them for two,
      so it panics whenever the first element is in bounds. */
  function ExecStp(s: State, size: Size, addr: Reg): Effect {
    var n, a := ByteSize(size), s.regs[addr];
    if !Fits(s.mem, a, n) then Fault(s, a, n, true) else Abort
  }

  /** The 16-bit field at `shift` is replaced; clear bit 0 zeroes what is below it and
      clear bit 1 what is above it. */
  function LdiValue(was: u64, imm: u16, shift: imm6, clear: imm2): u64 {
    var low := if clear % 2 == 1 then 0 else was % Pow2(shift);
    var high := if clear >= 2 || shift > 48 then 0 else was / Pow2(shift + 16) * Pow2(shift + 16);
    Wrap(high + imm * Pow2(shift) + low)
  }

  function ExecLdi(s: State, d: Reg, imm: u16, shift: imm6, clear: imm2): Effect {
    Done(s.(regs := s.regs[d := LdiValue(s.regs[d], imm, shift, clear)]))
  }

  function ExecLdr(s: State, d: Reg, offset: rel22): Effect {
    Done(s.(regs := s.regs[d := Wrap(s.ip + 4 + offset)]))
  }

  function ExecCopy(s: State, size: Size, d: Reg, src: Reg): Effect {
    Done(s.(regs := SetReg(s.regs, d, size, s.regs[src])))
  }

  function ExecAdd(s: State, size: Size, dst: Option<Reg>, lhs: Reg, rhs: AluRhs, carry: bool, setFlags: bool): Effect {
    var out := AddOut(size, s.regs[lhs], RhsValue(s.regs, rhs), B(carry && s.flags.carry));
    Done(s.(regs := SetOpt(s.regs, dst, size, out.value), flags := if setFlags then SetAlu(s.flags, out) else s.flags))
  }

  function ExecSub(s: State, size: Size, dst: Option<Reg>, lhs: Reg, rhs: AluRhs, borrow: bool,
          setFlags: bool): Effect {
    var out := SubOut(size, s.regs[lhs], RhsValue(s.regs, rhs), B(borrow && s.flags.carry));
    Done(s.(regs := SetOpt(s.regs, dst, size, out.value), flags := if setFlags then SetAlu(s.flags, out) else s.flags))
  }

  /** An operand read as a signed or as an unsigned number. */
  function Operand(size: Size, x: u64, signed: bool): int {
    if signed then Signed(x, Modulus(size)) else x % Modulus(size)
  }

  function Product(size: Size, a: u64, b: u64, signed: bool): u64 {
    Wrap(Operand(size, a, signed) * Operand(size, b, signed))
  }

  function ExecMul(s: State, srcSize: Size, dstSize: Size, d: Reg, lhs: Reg, rhs: Reg, signed: bool,
          setFlags: bool): Effect {
    var p := Product(srcSize, s.regs[lhs], s.regs[rhs], signed);
    Done(s.(regs := SetReg(s.regs, d, dstSize, p), flags := if setFlags then SetZs(s.flags, dstSize, p) else s.flags))
  }

  /** Division panics on a zero divisor and on the one signed quotient that needs 65 bits. */
  predicate DivisionPanics(size: Size, a: u64, b: u64, signed: bool) {
    var m := Modulus(size);
    b % m == 0 || (signed && size.Word? && Signed(a, m) == -(m / 2) && Signed(b, m) == -1)
  }

  function ExecDiv(s: State, size: Size, quot: Reg, rem: Reg, lhs: Reg, rhs: Reg, signed: bool,
          setFlags: bool): Effect {
    if DivisionPanics(size, s.regs[lhs], s.regs[rhs], signed) then Abort
    else
      var a, b := Operand(size, s.regs[lhs], signed), Operand(size, s.regs[rhs], signed);
      var q := TruncDiv(a, b);
      var r := if quot != rem then SetReg(s.regs, rem, size, TruncRem(a, b)) else s.regs;
      Done(s.(regs := SetReg(r, quot, size, q), flags := if setFlags then SetZs(s.flags, size, q) else s.flags))
  }

  /** Store a result and, when asked, set Z and S from it and clear O. */
  function Finish(s: State, size: Size, dst: Option<Reg>, v: nat, setFlags: bool, carry: bool): Effect {
    Done(s.(regs := SetOpt(s.regs, dst, size, v),
            flags := if setFlags then SetZs(s.flags, size, v).(overflow := false, carry := carry) else s.flags))
  }

  function ExecLogic(s: State, op: LogicOp, size: Size, dst: Option<Reg>, lhs: Reg, rhs: AluRhs,
          setFlags: bool): Effect {
    var b := match rhs
             case AluReg(r) => Low(s.regs, r, size)
             case AluImm(imm, factor, sx) => ImmValue(imm, factor, sx);
    Finish(s, size, dst, Bitwise(op, Low(s.regs, lhs, size), b, 64), setFlags, s.flags.carry)
  }

  function Amount(regs: Regs, size: Size, amount: ShiftRhs): u64 {
    match amount
    case ShiftReg(r) => Low(regs, r, size)
    case ShiftImm(imm) => imm
  }

  /** Shift left: the carry is the last bit shifted out of the operand, and bit 0 of it for
      every amount of at least its width. */
  function ExecShl(s: State, size: Size, dst: Option<Reg>, lhs: Reg, amount: ShiftRhs, setFlags: bool): Effect {
    var a, k, w := Low(s.regs, lhs, size), Amount(s.regs, size, amount), BitSize(size);
    var v := if k >= w then 0 else Wrap(a * Pow2(k));
    var c := if k == 0 then s.flags.carry else if k >= w then Bit(a, 0) else Bit(a, w - k);
    Finish(s, size, dst, v, setFlags, c)
  }

  /** Shift right: an arithmetic shift of less than the width copies the sign only at
      width 64, because narrower operands are zero-extended before they are shifted. */
  function ShrValue(size: Size, a: u64, k: nat, signed: bool): u64 {
    var w := BitSize(size);
    if k >= w then (if signed && a >= Modulus(size) / 2 then ALL_BITS else 0)
    else if signed then Wrap(Signed(a, W64) / Pow2(k))
    else ShrinkDiv(a, Pow2(k)); a / Pow2(k)
  }

  function ExecShr(s: State, size: Size, dst: Option<Reg>, lhs: Reg, amount: ShiftRhs, signed: bool,
          setFlags: bool): Effect {
    var a, k, w := Low(s.regs, lhs, size), Amount(s.regs, size, amount), BitSize(size);
    var c := if k == 0 then s.flags.carry else if k >= w then Bit(a, w - 1) else Bit(a, k - 1);
    Finish(s, size, dst, ShrValue(size, a, k, signed), setFlags, c)
  }

  function ExecRot(s: State, size: Size, dst: Option<Reg>, lhs: Reg, amount: ShiftRhs, setFlags: bool): Effect {
    var v := Rotr(size, Low(s.regs, lhs, size), Amount(s.regs, size, amount));
    Done(s.(regs := SetOpt(s.regs, dst, size, v),
            flags := if setFlags then s.flags.(sign := v % Modulus(size) >= Modulus(size) / 2) else s.flags))
  }

  function ExecNeg(s: State, size: Size, d: Reg, src: Reg, setFlags: bool): Effect {
    var v: int := 0 - (s.regs[src] as int);
    Done(s.(regs := SetReg(s.regs, d, size, v), flags := if setFlags then SetZs(s.flags, size, v) else s.flags))
  }

  function ExecBswap(s: State, size: Size, d: Reg, src: Reg, setFlags: bool): Effect {
    var v := Reversed(s.regs[src], ByteSize(size));
    Done(s.(regs := SetReg(s.regs, d, size, v),
            flags := if setFlags then s.flags.(sign := v % Modulus(size) >= Modulus(size) / 2) else s.flags))
  }

  function ExecSoc(s: State, c: Condition, borrow: bool, size: Size, d: Reg, lhs: Reg, rhs: Reg): Effect {
    Done(s.(regs := SetReg(s.regs, d, size, B(Compare(s, c, size, lhs, rhs, borrow)))))
  }

  function ExecSof(s: State, c: Condition, size: Size, d: Reg): Effect {
    Done(s.(regs := SetReg(s.regs, d, size, B(TestFlags(c, s.flags)))))
  }

  function JumpTo(s: State, dest: u64): Effect {
    if dest % 4 != 0 then Raise(s, InvalidOperation) else Done(s.(ip := Wrap(dest - 4)))
  }

  function CallTo(s: State, dest: u64): Effect {
    match JumpTo(s, dest)
    case Done(t) => Done(t.(regs := t.regs[LR := Wrap(s.ip + 4)]))
    case e => e
  }

  /** Relative destinations count instructions from the one after the jump. */
  function TargetAddress(s: State, t: JumpTarget): u64 {
    match t
    case JumpReg(r) => Wrap(s.ip + 4 + 4 * (s.regs[r] as int))
    case JumpRel(offset) => Wrap(s.ip + 4 + 4 * offset)
  }

  function BranchAddress(s: State, t: BranchTarget): u64 {
    match t
    case BranchReg(r) => Wrap(s.ip + 4 + 4 * (s.regs[r] as int))
    case BranchRel(offset) => Wrap(s.ip + 4 + 4 * offset)
  }

  function ExecRet(s: State): Effect {
    Done(s.(ip := Wrap((s.regs[LR] as int) - 4)))
  }

  function ExecExc(s: State, val: u16): Effect {
    Raise(s.(ip := Wrap(s.ip + 4)), User(val))
  }

  function ExecEret(s: State): Effect {
    if s.flags.pl1 then Raise(s, InvalidOperation)
    else Done(s.(ip := Wrap(s.elr - 4), flags := s.eflags, regs := s.regs[SP := s.esp]))
  }

  // ------------------------------------------------------ machine registers

  datatype MReg = MFlags | MElr | MEsp | MEflags | MEinfo | MEaddr | MEvtable | MEctable | MConsole

  function MRegOf(id: imm22): Option<MReg> {
    match id
    case 0 => Some(MFlags)
    case 1 => Some(MElr)
    case 2 => Some(MEsp)
    case 3 => Some(MEflags)
    case 4 => Some(MEinfo)
    case 5 => Some(MEaddr)
    case 6 => Some(MEvtable)
    case 7 => Some(MEctable)
    case _ => if id == 0xdead1 then Some(MConsole) else None
  }

  predicate Accessible(m: MReg, pl1: bool, write: bool) {
    match m
    case MFlags => !write || !pl1
    case MEinfo => !write && !pl1
    case MEaddr => !write && !pl1
    case MConsole => write
    case _ => !pl1
  }

  function FlagsWord(f: Flags): (w: u64)
    ensures w < 64
  {
    B(f.carry) + 2 * B(f.zero) + 4 * B(f.overflow) + 8 * B(f.sign) + 16 * B(f.enabled) + 32 * B(f.pl1)
  }

  function FlagsOf(w: nat): Flags {
    Flags(Bit(w, 0), Bit(w, 1), Bit(w, 2), Bit(w, 3), Bit(w, 4), Bit(w, 5))
  }

  function ReadMReg(s: State, m: MReg): u64 {
    match m
    case MFlags => FlagsWord(s.flags)
    case MElr => s.elr
    case MEsp => s.esp
    case MEflags => FlagsWord(s.eflags)
    case MEinfo => s.einfo
    case MEaddr => s.eaddr
    case MEvtable => s.evtable
    case MEctable => s.ectableAddr
    case MConsole => 0
  }

  function ExecLdm(s: State, d: Reg, id: imm22): Effect {
    match MRegOf(id)
    case None => Raise(s, InvalidOperation)
    case Some(m) =>
      if !Accessible(m, s.flags.pl1, false) then Raise(s, InvalidOperation)
      else Done(s.(regs := s.regs[d := ReadMReg(s, m)]))
  }

  const ECTABLE_SIZE: nat := 384

  function ReadEntry(m: Memory, a: nat): Entry
    requires Fits(m, a, 24)
  {
    WordRange(m, a);
    WordRange(m, a + 8);
    WordRange(m, a + 16);
    Entry(ReadLe(m, a, 8), ReadLe(m, a + 8, 8), ReadLe(m, a + 16, 8))
  }

  function ReadEntries(m: Memory, a: nat): Entries
    requires Fits(m, a, 192)
  {
    seq(8, i requires 0 <= i < 8 => ReadEntry(m, a + 24 * i))
  }

  /** The exception configuration table: 48 little-endian words. */
  function ReadEctable(m: Memory, a: nat): Ectable
    requires Fits(m, a, ECTABLE_SIZE)
  {
    Ectable(ReadEntries(m, a), ReadEntries(m, a + 192))
  }

  /** Only the stack-switch bit may be set in an entry's flags. */
  predicate ValidEntries(e: Entries) {
    forall i :: 0 <= i < 8 ==> e[i].flags < 2
  }

  predicate ValidEctable(t: Ectable) {
    ValidEntries(t.pl0) && ValidEntries(t.pl1)
  }

  function StoreFlags(s: State, v: u64): Effect {
    if v >= 64 then Raise(s, InvalidOperation) else Done(s.(flags := FlagsOf(v)))
  }

  function StoreEflags(s: State, v: u64): Effect {
    if v >= 64 then Raise(s, InvalidOperation) else Done(s.(eflags := FlagsOf(v)))
  }

  function StoreElr(s: State, v: u64): Effect {
    if v % 4 != 0 then Raise(s, InvalidOperation) else Done(s.(elr := v))
  }

  function StoreEvtable(s: State, v: u64): Effect {
    if v % 4 != 0 then Raise(s, InvalidOperation) else Done(s.(evtable := v))
  }

  function StoreEctable(s: State, v: u64): Effect {
    if !Fits(s.mem, v, ECTABLE_SIZE) then Fault(s, v, ECTABLE_SIZE, false)
    else if !ValidEctable(ReadEctable(s.mem, v)) then Raise(s, InvalidOperation)
    else Done(s.(ectableAddr := v, ectable := ReadEctable(s.mem, v)))
  }

  function ExecStm(s: State, id: imm22, src: Reg): Effect {
    var v := s.regs[src];
    match MRegOf(id)
    case None => Raise(s, InvalidOperation)
    case Some(m) =>
      if !Accessible(m, s.flags.pl1, true) then Raise(s, InvalidOperation)
      else match m
        case MFlags => StoreFlags(s, v)
        case MElr => StoreElr(s, v)
        case MEsp => Done(s.(esp := v))
        case MEflags => StoreEflags(s, v)
        case MEvtable => StoreEvtable(s, v)
        case MEctable => StoreEctable(s, v)
        case MConsole => Done(s.(console := s.console + [v % 0x100]))
        case MEinfo => Abort
        case MEaddr => Abort
  }

  // ------------------------------------------------------------- stepping

  function Exec(s: State, i: Instr): Effect {
    match i
    case Pushs(size, src) => ExecPushs(s, size, src)
    case Pushp(size, src1, src2) => ExecPushp(s, size, src1, src2)
    case Pops(size, dst) => ExecPops(s, size, dst)
    case Popp(size, dst1, dst2) => ExecPopp(s, size, dst1, dst2)
    case Lds(size, d, addr) => ExecLds(s, size, d, addr)
    case Ldp(size, d1, d2, addr) => ExecLdp(s, size, d1, d2, addr)
    case Sts(size, addr, src) => ExecSts(s, size, addr, src)
    case Stp(size, addr, _, _) => ExecStp(s, size, addr)
    case Ldi(d, imm, shift, clear) => ExecLdi(s, d, imm, shift, clear)
    case Ldr(d, offset) => ExecLdr(s, d, offset)
    case Copy(size, d, src) => ExecCopy(s, size, d, src)
    case Add(size, dst, lhs, rhs, carry, f) => ExecAdd(s, size, dst, lhs, rhs, carry, f)
    case Sub(size, dst, lhs, rhs, borrow, f) => ExecSub(s, size, dst, lhs, rhs, borrow, f)
    case Mul(srcSize, dstSize, d, lhs, rhs, signed, f) => ExecMul(s, srcSize, dstSize, d, lhs, rhs, signed, f)
    case Div(size, quot, rem, lhs, rhs, signed, f) => ExecDiv(s, size, quot, rem, lhs, rhs, signed, f)
    case Logic(op, size, dst, lhs, rhs, f) => ExecLogic(s, op, size, dst, lhs, rhs, f)
    case ShiftLeft(size, dst, lhs, amount, f) => ExecShl(s, size, dst, lhs, amount, f)
    case ShiftRight(size, dst, lhs, amount, signed, f) => ExecShr(s, size, dst, lhs, amount, signed, f)
    case Rotate(size, dst, lhs, amount, f) => ExecRot(s, size, dst, lhs, amount, f)
    case Neg(size, d, src, f) => ExecNeg(s, size, d, src, f)
    case Bswap(size, d, src, f) => ExecBswap(s, size, d, src, f)
    case Soc(c, borrow, size, d, lhs, rhs) => ExecSoc(s, c, borrow, size, d, lhs, rhs)
    case Sof(c, size, d) => ExecSof(s, c, size, d)
    case Jmpa(c, addr) => if Taken(c, s.flags) then JumpTo(s, s.regs[addr]) else Done(s)
    case Jmpr(c, target) => if Taken(c, s.flags) then JumpTo(s, TargetAddress(s, target)) else Done(s)
    case Cjmpa(c, size, addr, lhs, rhs) => if Compare(s, c, size, lhs, rhs, false) then JumpTo(s, s.regs[addr])
        else Done(s)
    case Cjmpr(c, size, branch, lhs, rhs) => if Compare(s, c, size, lhs, rhs, false)
        then JumpTo(s, BranchAddress(s, branch)) else Done(s)
    case Calla(c, addr) => if Taken(c, s.flags) then CallTo(s, s.regs[addr]) else Done(s)
    case Callr(c, target) => if Taken(c, s.flags) then CallTo(s, TargetAddress(s, target)) else Done(s)
    case Ret => ExecRet(s)
    case Eret => ExecEret(s)
    case Udf => Raise(s, InvalidInstruction)
    case Dbg => Raise(s, Debug)
    case Exc(val) => ExecExc(s, val)
    case Nop => Done(s)
    case Ldm(d, mreg) => ExecLdm(s, d, mreg)
    case Stm(mreg, src) => ExecStm(s, mreg, src)
  }

  function Advance(s: State): State {
    s.(ip := Wrap(s.ip + 4))
  }

  function FetchWord(s: State): u32
    requires Fits(s.mem, s.ip, 4)
  {
    WordRange(s.mem, s.ip);
    ReadLe(s.mem, s.ip, 4)
  }

  function After(e: Effect): Outcome {
    match e
    case Done(t) => Next(Advance(t))
    case Raised(t) => Next(t)
    case Abort => Panic
  }

  /** The body of the arm a word decodes to.  The arm for unmatched encodings takes its
      exception and then falls through, so it resumes one instruction into the vector. */
  function Meaning(s: State, d: D.DecodeResult): Effect {
    match d
    case Unmatched => Done(TakeException(s, InvalidInstruction))
    case BadField => Abort
    case Decoded(i) => Exec(s, i)
  }

  /** How instruction words are understood.  The machine is stated for any decoder; the
      emulator's is D.Decode. */
  type Decoder = u32 -> D.DecodeResult

  /** One cycle. */
  function Step(dec: Decoder, s: State): Outcome {
    if !Fits(s.mem, s.ip, 4) then Next(TakeException(s, InstructionLoadError))
    else After(Meaning(s, dec(FetchWord(s))))
  }

  lemma StepByMeaning(dec: Decoder, s: State, d: D.DecodeResult)
    requires Fits(s.mem, s.ip, 4) && d == dec(FetchWord(s))
    ensures Step(dec, s) == After(Meaning(s, d))
  {
  }
}
