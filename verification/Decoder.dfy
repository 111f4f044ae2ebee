/**
 The instruction tables: which template encodes which instruction, how the emulator
 chooses a match arm, and how operand fields become typed operands.
 */
module Decoder {
  import opened Bits
  import opened Templates
  import opened Isa

  /** The match arms of the emulator, in source order. */
  datatype Arm =
    | PUSHS | PUSHP | POPS | POPP | LDS | LDP | STS | STP | LDI | LDR | COPY
    | ADD_REG | ADD_IMM | SUB_REG | SUB_IMM | MUL | DIV
    | AND_REG | AND_IMM | OR_REG | OR_IMM | XOR_REG | XOR_IMM
    | SHL_REG | SHL_IMM | SHR_REG | SHR_IMM | ROT_REG | ROT_IMM
    | NEG | BSWAP | SOC | SOF
    | JMPA | JMPR_REG | JMPR_REL | CJMPA | CJMPR_REG | CJMPR_REL | CALLA | CALLR_REG | CALLR_REL
    | RET | ERET | UDF | DBG | EXC | NOP | LDM | STM

  function SourceOrder(): seq<Arm> {
    [PUSHS, PUSHP, POPS, POPP, LDS, LDP, STS, STP, LDI, LDR, COPY] +
    [ADD_REG, ADD_IMM, SUB_REG, SUB_IMM, MUL, DIV] +
    [AND_REG, AND_IMM, OR_REG, OR_IMM, XOR_REG, XOR_IMM] +
    [SHL_REG, SHL_IMM, SHR_REG, SHR_IMM, ROT_REG, ROT_IMM] +
    [NEG, BSWAP, SOC, SOF] +
    [JMPA, JMPR_REG, JMPR_REL, CJMPA, CJMPR_REG, CJMPR_REL, CALLA, CALLR_REG, CALLR_REL] +
    [RET, ERET, UDF, DBG, EXC, NOP, LDM, STM]
  }

  /** Bits 31 to 26 of each arm's template. */
  function OpcodeText(a: Arm): (text: string)
    ensures |text| == 6
  {
    match a
    case PUSHS => "110111"
    case PUSHP => "110110"
    case POPS => "110101"
    case POPP => "110100"
    case LDS => "110011"
    case LDP => "110010"
    case STS => "110001"
    case STP => "110000"
    case LDI => "1110cc"
    case LDR => "001100"
    case COPY => "101010"
    case ADD_REG => "101001"
    case ADD_IMM => "1011ss"
    case SUB_REG => "101000"
    case SUB_IMM => "1001ss"
    case MUL => "100011"
    case DIV => "100010"
    case AND_REG => "101011"
    case AND_IMM => "10000A"
    case OR_REG => "010000"
    case OR_IMM => "01111A"
    case XOR_REG => "001110"
    case XOR_IMM => "01110A"
    case SHL_REG => "011010"
    case SHL_IMM => "011011"
    case SHR_REG => "011000"
    case SHR_IMM => "011001"
    case ROT_REG => "010110"
    case ROT_IMM => "010111"
    case NEG => "010101"
    case BSWAP => "010100"
    case SOC => "111100"
    case SOF => "111101"
    case JMPA => "010011"
    case JMPR_REG => "010010"
    case JMPR_REL => "010001"
    case CJMPA => "001111"
    case CJMPR_REG => "001101"
    case CJMPR_REL => "11111c"
    case CALLA => "001010"
    case CALLR_REG => "001001"
    case CALLR_REL => "001000"
    case RET => "000111"
    case ERET => "000110"
    case UDF => "000000"
    case DBG => "000010"
    case EXC => "000011"
    case NOP => "000001"
    case LDM => "000100"
    case STM => "000101"
  }

  /** Bits 25 to 0 of each arm's template. */
  function OperandText(a: Arm): (text: string)
    ensures |text| == 26
  {
    match a
    case PUSHS => "0000000000000000000ssaaaaa"
    case PUSHP => "00000000000000ssaaaaabbbbb"
    case POPS => "0000000000000000000ssaaaaa"
    case POPP => "00000000000000ssaaaaabbbbb"
    case LDS => "0000000000000000ssddddaaaa"
    case LDP => "000000000000ssddddeeeeaaaa"
    case STS => "0000000000000000ssaaaabbbb"
    case STP => "000000000000ssaaaabbbbcccc"
    case LDI => "aaaaaaaaaaaaaaaabbbbbbdddd"
    case LDR => "ddddaaaaaaaaaaaaaaaaaaaaaa"
    case COPY => "0000000000000000ssddddSSSS"
    case ADD_REG => "000000000sscfdddddaaaabbbb"
    case ADD_IMM => "cfdddddaaaaASSSbbbbbbbbbbb"
    case SUB_REG => "000000000ssBfdddddaaaabbbb"
    case SUB_IMM => "BfdddddaaaaASSSbbbbbbbbbbb"
    case MUL => "00000000ssttSfddddaaaabbbb"
    case DIV => "000000ssSfddddrrrraaaabbbb"
    case AND_REG => "0000000000ssfdddddaaaabbbb"
    case AND_IMM => "ssfdddddaaaabbbbbbbbbbbSSS"
    case OR_REG => "0000000000ssfdddddaaaabbbb"
    case OR_IMM => "ssfdddddaaaabbbbbbbbbbbSSS"
    case XOR_REG => "0000000000ssfdddddaaaabbbb"
    case XOR_IMM => "ssfdddddaaaabbbbbbbbbbbSSS"
    case SHL_REG => "0000000000ssfdddddaaaabbbb"
    case SHL_IMM => "0000000ssfdddddaaaabbbbbbb"
    case SHR_REG => "000000000ssAfdddddaaaabbbb"
    case SHR_IMM => "000000ssAfdddddaaaabbbbbbb"
    case ROT_REG => "0000000000ssfdddddaaaabbbb"
    case ROT_IMM => "0000000ssfdddddaaaabbbbbbb"
    case NEG => "000000000000000ssfddddaaaa"
    case BSWAP => "000000000000000ssfddddaaaa"
    case SOC => "0000000ccccBssddddaaaabbbb"
    case SOF => "0000000000000000ccccssdddd"
    case JMPA => "000000000000000000ccccaaaa"
    case JMPR_REG => "000000000000000000ccccaaaa"
    case JMPR_REL => "ccccaaaaaaaaaaaaaaaaaaaaaa"
    case CJMPA => "00000000ccccssaaaabbbbCCCC"
    case CJMPR_REG => "00000000ccccssaaaabbbbCCCC"
    case CJMPR_REL => "cccssbbbbCCCCaaaaaaaaaaaaa"
    case CALLA => "000000000000000000ccccaaaa"
    case CALLR_REG => "000000000000000000ccccaaaa"
    case CALLR_REL => "ccccaaaaaaaaaaaaaaaaaaaaaa"
    case RET => "00000000000000000000000000"
    case ERET => "00000000000000000000000000"
    case UDF => "00000000000000000000000000"
    case DBG => "00000000000000000000000000"
    case EXC => "0000000000aaaaaaaaaaaaaaaa"
    case NOP => "00000000000000000000000000"
    case LDM => "ddddaaaaaaaaaaaaaaaaaaaaaa"
    case STM => "aaaadddddddddddddddddddddd"
  }

  /** The 32 characters between the brackets in the instruction tables. */
  function ArmTemplate(a: Arm): string {
    OpcodeText(a) + OperandText(a)
  }

  // ------------------------------------------------------------ opcodes

  /** The arm selected by the top six bits of a word; only 001011 selects none. */
  function ArmOf(op: nat): Option<Arm> {
    match op
    case 0 => Some(UDF)
    case 1 => Some(NOP)
    case 2 => Some(DBG)
    case 3 => Some(EXC)
    case 4 => Some(LDM)
    case 5 => Some(STM)
    case 6 => Some(ERET)
    case 7 => Some(RET)
    case 8 => Some(CALLR_REL)
    case 9 => Some(CALLR_REG)
    case 10 => Some(CALLA)
    case 12 => Some(LDR)
    case 13 => Some(CJMPR_REG)
    case 14 => Some(XOR_REG)
    case 15 => Some(CJMPA)
    case 16 => Some(OR_REG)
    case 17 => Some(JMPR_REL)
    case 18 => Some(JMPR_REG)
    case 19 => Some(JMPA)
    case 20 => Some(BSWAP)
    case 21 => Some(NEG)
    case 22 => Some(ROT_REG)
    case 23 => Some(ROT_IMM)
    case 24 => Some(SHR_REG)
    case 25 => Some(SHR_IMM)
    case 26 => Some(SHL_REG)
    case 27 => Some(SHL_IMM)
    case 34 => Some(DIV)
    case 35 => Some(MUL)
    case 40 => Some(SUB_REG)
    case 41 => Some(ADD_REG)
    case 42 => Some(COPY)
    case 43 => Some(AND_REG)
    case 48 => Some(STP)
    case 49 => Some(STS)
    case 50 => Some(LDP)
    case 51 => Some(LDS)
    case 52 => Some(POPP)
    case 53 => Some(POPS)
    case 54 => Some(PUSHP)
    case 55 => Some(PUSHS)
    case 60 => Some(SOC)
    case 61 => Some(SOF)
    case _ =>
      if 28 <= op < 30 then Some(XOR_IMM)
      else if 30 <= op < 32 then Some(OR_IMM)
      else if 32 <= op < 34 then Some(AND_IMM)
      else if 36 <= op < 40 then Some(SUB_IMM)
      else if 44 <= op < 48 then Some(ADD_IMM)
      else if 56 <= op < 60 then Some(LDI)
      else if 62 <= op < 64 then Some(CJMPR_REL)
      else None
  }

  /** The top six bits of a word that agrees with the fixed bits of a template. */
  lemma Opcode(head: string, tail: string, w: u32)
    requires |head| == 6 && |tail| == 26 && FixedBitsAgree(head + tail, w)
    ensures exists b5: bool, b4: bool, b3: bool, b2: bool, b1: bool, b0: bool ::
              && w / 0x400_0000 == 32 * B(b5) + 16 * B(b4) + 8 * B(b3) + 4 * B(b2) + 2 * B(b1) + B(b0)
              && Follows(head[0], b5) && Follows(head[1], b4) && Follows(head[2], b3)
              && Follows(head[3], b2) && Follows(head[4], b1) && Follows(head[5], b0)
  {
    var op := w / 0x400_0000;
    Pow2Values();
    forall k: nat | k < 6 ensures Follows(head[5 - k], Bit(op, k)) {
      DivBit(w, 26, k);
      assert At(head + tail, 26 + k) == head[5 - k];
    }
    SixBits(op);
    assert Follows(head[5 - 5], Bit(op, 5)) && Follows(head[5 - 4], Bit(op, 4)) && Follows(head[5 - 3], Bit(op, 3));
    assert Follows(head[5 - 2], Bit(op, 2)) && Follows(head[5 - 1], Bit(op, 1)) && Follows(head[5 - 0], Bit(op, 0));
  }

  predicate Follows(c: char, b: bool) {
    (c == '0' ==> !b) && (c == '1' ==> b)
  }

  lemma LowDigits(x: nat)
    ensures B(Bit(x, 0)) == x % 2 && B(Bit(x, 1)) == x / 2 % 2 && B(Bit(x, 2)) == x / 2 / 2 % 2
    ensures B(Bit(x, 3)) == x / 2 / 2 / 2 % 2 && B(Bit(x, 4)) == x / 2 / 2 / 2 / 2 % 2
    ensures B(Bit(x, 5)) == x / 2 / 2 / 2 / 2 / 2 % 2
  {
  }

  lemma SixDigits(op: nat)
    requires op < 64
    ensures op == 32 * (op / 2 / 2 / 2 / 2 / 2 % 2) + 16 * (op / 2 / 2 / 2 / 2 % 2) + 8 * (op / 2 / 2 / 2 % 2)
                  + 4 * (op / 2 / 2 % 2) + 2 * (op / 2 % 2) + op % 2
  {
  }

  lemma SixBits(op: nat)
    requires op < 64
    ensures op == 32 * B(Bit(op, 5)) + 16 * B(Bit(op, 4)) + 8 * B(Bit(op, 3)) + 4 * B(Bit(op, 2)) + 2 * B(Bit(op,
            1)) + B(Bit(op, 0))
  {
    LowDigits(op);
    SixDigits(op);
  }

  // The sections of the instruction list; used to split proofs over all arms.
  predicate IsMemory(a: Arm) {
    a in {PUSHS, PUSHP, POPS, POPP, LDS, LDP, STS, STP, LDI, LDR, COPY}
  }

  predicate IsShift(a: Arm) {
    a in {SHL_REG, SHL_IMM, SHR_REG, SHR_IMM, ROT_REG, ROT_IMM, NEG, BSWAP, SOC, SOF}
  }

  predicate IsBitwise(a: Arm) {
    a in {AND_REG, AND_IMM, OR_REG, OR_IMM, XOR_REG, XOR_IMM, SHL_REG, SHL_IMM, SHR_REG, SHR_IMM, ROT_REG, ROT_IMM,
        NEG, BSWAP, SOC, SOF}
  }

  lemma TemplateLength(a: Arm)
    ensures |OpcodeText(a)| == 6 && |OperandText(a)| == 26 && |ArmTemplate(a)| == 32
  {
  }

  lemma MatchSelectsMemory(a: Arm, w: u32)
    requires IsMemory(a) && FixedBitsAgree(ArmTemplate(a), w)
    ensures ArmOf(w / 0x400_0000) == Some(a)
  {
    TemplateLength(a);
    Opcode(OpcodeText(a), OperandText(a), w);
  }

  lemma MatchSelectsBitwise(a: Arm, w: u32)
    requires IsBitwise(a) && !IsShift(a) && FixedBitsAgree(ArmTemplate(a), w)
    ensures ArmOf(w / 0x400_0000) == Some(a)
  {
    TemplateLength(a);
    Opcode(OpcodeText(a), OperandText(a), w);
  }

  lemma MatchSelectsShift(a: Arm, w: u32)
    requires IsShift(a) && FixedBitsAgree(ArmTemplate(a), w)
    ensures ArmOf(w / 0x400_0000) == Some(a)
  {
    TemplateLength(a);
    Opcode(OpcodeText(a), OperandText(a), w);
  }

  lemma MatchSelectsRest(a: Arm, w: u32)
    requires !IsMemory(a) && !IsBitwise(a) && FixedBitsAgree(ArmTemplate(a), w)
    ensures ArmOf(w / 0x400_0000) == Some(a)
  {
    TemplateLength(a);
    Opcode(OpcodeText(a), OperandText(a), w);
  }

  predicate ArmMatches(a: Arm, w: u32) {
    TemplateLength(a);
    Matches(ArmTemplate(a), w)
  }

  /** A word that matches an arm has that arm's opcode. */
  lemma MatchSelects(a: Arm, w: u32)
    requires ArmMatches(a, w)
    ensures ArmOf(w / 0x400_0000) == Some(a)
  {
    TemplateLength(a);
    MatchesIff(ArmTemplate(a), w);
    if IsMemory(a) {
      MatchSelectsMemory(a, w);
    } else if IsShift(a) {
      MatchSelectsShift(a, w);
    } else if IsBitwise(a) {
      MatchSelectsBitwise(a, w);
    } else {
      MatchSelectsRest(a, w);
    }
  }

  /** No word matches two arms. */
  lemma Unambiguous(a: Arm, b: Arm, w: u32)
    requires ArmMatches(a, w) && ArmMatches(b, w)
    ensures a == b
  {
    MatchSelects(a, w);
    MatchSelects(b, w);
  }

  // ----------------------------------------------------- operand fields

  datatype DecodeResult =
    | Unmatched              // no arm: an invalid instruction
    | BadField               // an arm whose operand has no meaning: the emulator panics
    | Decoded(i: Instr)

  /** An operand, or the panic the emulator raises while converting it. */
  datatype Operand<+T> = Good(value: T) | Bad {
    predicate IsFailure() { Bad? }
    function PropagateFailure(): DecodeResult
      requires Bad?
    {
      BadField
    }
    function Extract(): T
      requires Good?
    {
      value
    }
  }

  function ToReg(v: u64): Reg { v % 16 }

  function ToSize(v: u64): Size {
    match v % 4
    case 0 => Byte
    case 1 => DoubleByte
    case 2 => QuadByte
    case _ => Word
  }

  function ToFlag(v: u64): bool { v % 2 == 1 }

  function ToNullReg(v: u64): Operand<Option<Reg>> {
    if v < 16 then Good(Some(v)) else if v == 31 then Good(None) else Bad
  }

  function ToCond(v: u64): Operand<Condition> {
    match v
    case 0 => Good(Condition.C)
    case 1 => Good(Condition.NC)
    case 2 => Good(Condition.Z)
    case 3 => Good(Condition.NZ)
    case 4 => Good(Condition.O)
    case 5 => Good(Condition.NO)
    case 6 => Good(Condition.S)
    case 7 => Good(Condition.NS)
    case 8 => Good(Condition.L)
    case 9 => Good(Condition.NL)
    case _ => Bad
  }

  function ToNullCond(v: u64): Operand<Option<Condition>> {
    if v == 15 then Good(None)
    else match ToCond(v)
      case Good(c) => Good(Some(c))
      case Bad => Bad
  }

  function ToRel13(v: u64): rel13 {
    var x := v % 0x2000;
    if x < 0x1000 then x else x - 0x2000
  }

  function ToRel22(v: u64): rel22 {
    var x := v % 0x40_0000;
    if x < 0x20_0000 then x else x - 0x40_0000
  }

  function ToAluImm(f: Env): AluRhs {
    AluImm(f('b') % 0x800, f('S') % 8, ToFlag(f('A')))
  }

  /** The instruction an arm stands for, given its operand fields. */
  function Build(a: Arm, f: Env): DecodeResult {
    match a
    case PUSHS => var x :- ToNullReg(f('a')); Decoded(Pushs(ToSize(f('s')), x))
    case PUSHP => var x :- ToNullReg(f('a')); var y :- ToNullReg(f('b')); Decoded(Pushp(ToSize(f('s')), x, y))
    case POPS => var x :- ToNullReg(f('a')); Decoded(Pops(ToSize(f('s')), x))
    case POPP => var x :- ToNullReg(f('a')); var y :- ToNullReg(f('b')); Decoded(Popp(ToSize(f('s')), x, y))
    case LDS => Decoded(Lds(ToSize(f('s')), ToReg(f('d')), ToReg(f('a'))))
    case LDP => Decoded(Ldp(ToSize(f('s')), ToReg(f('d')), ToReg(f('e')), ToReg(f('a'))))
    case STS => Decoded(Sts(ToSize(f('s')), ToReg(f('a')), ToReg(f('b'))))
    case STP => Decoded(Stp(ToSize(f('s')), ToReg(f('a')), ToReg(f('b')), ToReg(f('c'))))
    case LDI => Decoded(Ldi(ToReg(f('d')), f('a') % 0x1_0000, f('b') % 0x40, f('c') % 4))
    case LDR => Decoded(Ldr(ToReg(f('d')), ToRel22(f('a'))))
    case COPY => Decoded(Copy(ToSize(f('s')), ToReg(f('d')), ToReg(f('S'))))
    case ADD_REG => BuildAlu(f, AluReg(ToReg(f('b'))), ToFlag(f('c')), true)
    case ADD_IMM => BuildAlu(f, ToAluImm(f), ToFlag(f('c')), true)
    case SUB_REG => BuildAlu(f, AluReg(ToReg(f('b'))), ToFlag(f('B')), false)
    case SUB_IMM => BuildAlu(f, ToAluImm(f), ToFlag(f('B')), false)
    case MUL => Decoded(Mul(ToSize(f('s')), ToSize(f('t')), ToReg(f('d')), ToReg(f('a')), ToReg(f('b')),
        ToFlag(f('S')), ToFlag(f('f'))))
    case DIV => Decoded(Div(ToSize(f('s')), ToReg(f('d')), ToReg(f('r')), ToReg(f('a')), ToReg(f('b')),
        ToFlag(f('S')), ToFlag(f('f'))))
    case AND_REG => BuildLogic(f, AND, AluReg(ToReg(f('b'))))
    case AND_IMM => BuildLogic(f, AND, ToAluImm(f))
    case OR_REG => BuildLogic(f, OR, AluReg(ToReg(f('b'))))
    case OR_IMM => BuildLogic(f, OR, ToAluImm(f))
    case XOR_REG => BuildLogic(f, XOR, AluReg(ToReg(f('b'))))
    case XOR_IMM => BuildLogic(f, XOR, ToAluImm(f))
    case SHL_REG => BuildShl(f, ShiftReg(ToReg(f('b'))))
    case SHL_IMM => BuildShl(f, ShiftImm(f('b') % 0x80))
    case SHR_REG => BuildShr(f, ShiftReg(ToReg(f('b'))))
    case SHR_IMM => BuildShr(f, ShiftImm(f('b') % 0x80))
    case ROT_REG => BuildRot(f, ShiftReg(ToReg(f('b'))))
    case ROT_IMM => BuildRot(f, ShiftImm(f('b') % 0x80))
    case NEG => Decoded(Neg(ToSize(f('s')), ToReg(f('d')), ToReg(f('a')), ToFlag(f('f'))))
    case BSWAP => Decoded(Bswap(ToSize(f('s')), ToReg(f('d')), ToReg(f('a')), ToFlag(f('f'))))
    case SOC => var c :- ToCond(f('c')); Decoded(Soc(c, ToFlag(f('B')), ToSize(f('s')), ToReg(f('d')), ToReg(f('a')),
        ToReg(f('b'))))
    case SOF => var c :- ToCond(f('c')); Decoded(Sof(c, ToSize(f('s')), ToReg(f('d'))))
    case JMPA => var c :- ToNullCond(f('c')); Decoded(Jmpa(c, ToReg(f('a'))))
    case JMPR_REG => var c :- ToNullCond(f('c')); Decoded(Jmpr(c, JumpReg(ToReg(f('a')))))
    case JMPR_REL => var c :- ToNullCond(f('c')); Decoded(Jmpr(c, JumpRel(ToRel22(f('a')))))
    case CJMPA => var c :- ToCond(f('c')); Decoded(Cjmpa(c, ToSize(f('s')), ToReg(f('a')), ToReg(f('b')),
        ToReg(f('C'))))
    case CJMPR_REG => var c :- ToCond(f('c')); Decoded(Cjmpr(c, ToSize(f('s')), BranchReg(ToReg(f('a'))),
        ToReg(f('b')), ToReg(f('C'))))
    case CJMPR_REL => var c :- ToCond(f('c')); Decoded(Cjmpr(c, ToSize(f('s')), BranchRel(ToRel13(f('a'))),
        ToReg(f('b')), ToReg(f('C'))))
    case CALLA => var c :- ToNullCond(f('c')); Decoded(Calla(c, ToReg(f('a'))))
    case CALLR_REG => var c :- ToNullCond(f('c')); Decoded(Callr(c, JumpReg(ToReg(f('a')))))
    case CALLR_REL => var c :- ToNullCond(f('c')); Decoded(Callr(c, JumpRel(ToRel22(f('a')))))
    case RET => Decoded(Ret)
    case ERET => Decoded(Eret)
    case UDF => Decoded(Udf)
    case DBG => Decoded(Dbg)
    case EXC => Decoded(Exc(f('a') % 0x1_0000))
    case NOP => Decoded(Nop)
    case LDM => Decoded(Ldm(ToReg(f('d')), f('a') % 0x40_0000))
    case STM => Decoded(Stm(f('d') % 0x40_0000, ToReg(f('a'))))
  }

  function BuildAlu(f: Env, rhs: AluRhs, carry: bool, add: bool): DecodeResult {
    var d :- ToNullReg(f('d'));
    Decoded(if add then Add(ToSize(f('s')), d, ToReg(f('a')), rhs, carry, ToFlag(f('f')))
            else Sub(ToSize(f('s')), d, ToReg(f('a')), rhs, carry, ToFlag(f('f'))))
  }

  function BuildLogic(f: Env, op: LogicOp, rhs: AluRhs): DecodeResult {
    var d :- ToNullReg(f('d'));
    Decoded(Logic(op, ToSize(f('s')), d, ToReg(f('a')), rhs, ToFlag(f('f'))))
  }

  function BuildShl(f: Env, amount: ShiftRhs): DecodeResult {
    var d :- ToNullReg(f('d'));
    Decoded(ShiftLeft(ToSize(f('s')), d, ToReg(f('a')), amount, ToFlag(f('f'))))
  }

  function BuildShr(f: Env, amount: ShiftRhs): DecodeResult {
    var d :- ToNullReg(f('d'));
    Decoded(ShiftRight(ToSize(f('s')), d, ToReg(f('a')), amount, ToFlag(f('A')), ToFlag(f('f'))))
  }

  function BuildRot(f: Env, amount: ShiftRhs): DecodeResult {
    var d :- ToNullReg(f('d'));
    Decoded(Rotate(ToSize(f('s')), d, ToReg(f('a')), amount, ToFlag(f('f'))))
  }

  // ------------------------------------------------------------ decoding

  function ArmFields(a: Arm, w: u32): Env {
    TemplateLength(a);
    Fields(ArmTemplate(a), w)
  }

  /** The meaning of a word, by its opcode. */
  function Decode(w: u32): DecodeResult {
    match ArmOf(w / 0x400_0000)
    case None => Unmatched
    case Some(a) => if ArmMatches(a, w) then Build(a, ArmFields(a, w)) else Unmatched
  }

  /** The generated `match`: the first arm of the list that matches. */
  function FirstMatch(arms: seq<Arm>, w: u32): DecodeResult {
    if arms == [] then Unmatched
    else if ArmMatches(arms[0], w) then Build(arms[0], ArmFields(arms[0], w))
    else FirstMatch(arms[1..], w)
  }

  lemma {:induction false} FirstMatchOf(arms: seq<Arm>, w: u32)
    ensures FirstMatch(arms, w) ==
            match ArmOf(w / 0x400_0000)
            case Some(a) => if a in arms then Decode(w) else Unmatched
            case None => Unmatched
  {
    if arms != [] {
      if ArmMatches(arms[0], w) {
        MatchSelects(arms[0], w);
      } else {
        FirstMatchOf(arms[1..], w);
      }
    }
  }

  /** Arm order is irrelevant: any list that mentions every arm decodes every word alike. */
  lemma OrderIrrelevant(arms: seq<Arm>, w: u32)
    requires forall a: Arm :: a in arms
    ensures FirstMatch(arms, w) == Decode(w)
  {
    FirstMatchOf(arms, w);
  }

  lemma SourceOrderComplete(a: Arm)
    ensures a in SourceOrder()
  {
  }
}
