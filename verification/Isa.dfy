/** Registers, operand kinds and instructions of the architecture. */
module Isa {
  import opened Bits

  datatype Option<+T> = None | Some(value: T)

  type Reg = r: nat | r < 16
  type imm2 = x: nat | x < 0x4
  type imm3 = x: nat | x < 0x8
  type imm6 = x: nat | x < 0x40
  type imm7 = x: nat | x < 0x80
  type imm11 = x: nat | x < 0x800
  type imm22 = x: nat | x < 0x40_0000
  type rel13 = x: int | -0x1000 <= x < 0x1000
  type rel22 = x: int | -0x20_0000 <= x < 0x20_0000

  const SP: Reg := 13
  const FP: Reg := 14
  const LR: Reg := 15

  datatype Size = Byte | DoubleByte | QuadByte | Word

  function ByteSize(s: Size): nat {
    match s
    case Byte => 1
    case DoubleByte => 2
    case QuadByte => 4
    case Word => 8
  }

  function BitSize(s: Size): nat {
    8 * ByteSize(s)
  }

  /** 2^BitSize(s): one more than the largest value of the given width. */
  function Modulus(s: Size): int {
    match s
    case Byte => 0x100
    case DoubleByte => 0x1_0000
    case QuadByte => 0x1_0000_0000
    case Word => 0x1_0000_0000_0000_0000
  }

  lemma ModulusIsPow2(s: Size)
    ensures Modulus(s) == Pow2(BitSize(s))
    ensures Modulus(s) / 2 == Pow2(BitSize(s) - 1)
  {
    Pow2Values();
  }

  datatype Condition = C | NC | Z | NZ | O | NO | S | NS | L | NL

  /** Second source of an arithmetic or logical instruction. */
  datatype AluRhs = AluReg(r: Reg) | AluImm(imm: imm11, factor: imm3, signExtend: bool)

  /** Amount of a shift or rotation. */
  datatype ShiftRhs = ShiftReg(r: Reg) | ShiftImm(imm: imm7)

  /** Destination of an unconditional or flag-conditional relative jump or call. */
  datatype JumpTarget = JumpReg(r: Reg) | JumpRel(offset: rel22)

  /** Destination of a relative compare-and-jump. */
  datatype BranchTarget = BranchReg(r: Reg) | BranchRel(offset: rel13)

  datatype Instr =
    | Pushs(size: Size, src: Option<Reg>)
    | Pushp(size: Size, src1: Option<Reg>, src2: Option<Reg>)
    | Pops(size: Size, dst: Option<Reg>)
    | Popp(size: Size, dst1: Option<Reg>, dst2: Option<Reg>)
    | Lds(size: Size, d: Reg, addr: Reg)
    | Ldp(size: Size, d1: Reg, d2: Reg, addr: Reg)
    | Sts(size: Size, addr: Reg, s: Reg)
    | Stp(size: Size, addr: Reg, s1: Reg, s2: Reg)
    | Ldi(d: Reg, imm: u16, shift: imm6, clear: imm2)
    | Ldr(d: Reg, offset: rel22)
    | Copy(size: Size, d: Reg, s: Reg)
    | Add(size: Size, dst: Option<Reg>, lhs: Reg, rhs: AluRhs, carry: bool, setFlags: bool)
    | Sub(size: Size, dst: Option<Reg>, lhs: Reg, rhs: AluRhs, carry: bool, setFlags: bool)
    | Mul(srcSize: Size, dstSize: Size, d: Reg, lhs: Reg, r: Reg, signed: bool, setFlags: bool)
    | Div(size: Size, quot: Reg, rem: Reg, lhs: Reg, r: Reg, signed: bool, setFlags: bool)
    | Logic(op: LogicOp, size: Size, dst: Option<Reg>, lhs: Reg, rhs: AluRhs, setFlags: bool)
    | ShiftLeft(size: Size, dst: Option<Reg>, lhs: Reg, amount: ShiftRhs, setFlags: bool)
    | ShiftRight(size: Size, dst: Option<Reg>, lhs: Reg, amount: ShiftRhs, signed: bool, setFlags: bool)
    | Rotate(size: Size, dst: Option<Reg>, lhs: Reg, amount: ShiftRhs, setFlags: bool)
    | Neg(size: Size, d: Reg, s: Reg, setFlags: bool)
    | Bswap(size: Size, d: Reg, s: Reg, setFlags: bool)
    | Soc(cond: Condition, borrow: bool, size: Size, d: Reg, lhs: Reg, r: Reg)
    | Sof(cond: Condition, size: Size, d: Reg)
    | Jmpa(when: Option<Condition>, addr: Reg)
    | Jmpr(when: Option<Condition>, target: JumpTarget)
    | Cjmpa(cond: Condition, size: Size, addr: Reg, lhs: Reg, r: Reg)
    | Cjmpr(cond: Condition, size: Size, branch: BranchTarget, lhs: Reg, r: Reg)
    | Calla(when: Option<Condition>, addr: Reg)
    | Callr(when: Option<Condition>, target: JumpTarget)
    | Ret
    | Eret
    | Udf
    | Dbg
    | Exc(val: u16)
    | Nop
    | Ldm(d: Reg, mreg: imm22)
    | Stm(mreg: imm22, s: Reg)
}
