/**
 The assembler's instruction table: for every row its operands, its modifiers and its
 templates, written independently of the emulator's and proved to agree with them.
 */
module Table {
  import opened Bits
  import opened Templates
  import opened Isa
  import opened Decoder
  import opened Encoder

  /** The rows of the table, in source order. */
  datatype Row =
    | RPushs | RPushp | RPops | RPopp | RLds | RLdp | RSts | RStp | RLdi | RLdr | RCopy | RAddReg | RAddImm
    | RSubReg | RSubImm | RMul | RDiv | RAndReg | RAndImm | ROrReg | ROrImm | RXorReg | RXorImm | RShl | RShr
    | RRot | RNeg | RBswap | RSoc | RSof | RJmpa | RJmpr | RCjmpa | RCjmpr | RCalla | RCallr | RRet | REret
    | RUdf | RDbg | RExc | RNop | RLdm | RStm | RCmpReg | RCmpImm

  datatype Modifier = Absent | Optional | Required

  type Width = w: nat | 1 <= w <= 64 witness 1

  datatype ParamType =
    | PReg | PNull | PBool
    | PImm(width: Width)       // unsigned immediate
    | PRel(width: Width)       // register, or distance in instructions
    | PByteRel(width: Width)   // distance in bytes
    | PRegImm(width: Width)    // register, or unsigned immediate

  datatype Param = Param(letter: char, ty: ParamType, optional: bool)

  function Params(r: Row): seq<Param> {
    match r
    case RPushs => [Param('a', PNull, false)]
    case RPushp => [Param('a', PNull, false), Param('b', PNull, false)]
    case RPops => [Param('a', PNull, false)]
    case RPopp => [Param('a', PNull, false), Param('b', PNull, false)]
    case RLds => [Param('d', PReg, false), Param('a', PReg, false)]
    case RLdp => [Param('d', PReg, false), Param('e', PReg, false), Param('a', PReg, false)]
    case RSts => [Param('a', PReg, false), Param('b', PReg, false)]
    case RStp => [Param('a', PReg, false), Param('b', PReg, false), Param('c', PReg, false)]
    case RLdi => [Param('d', PReg, false), Param('a', PImm(16), false), Param('b', PImm(6), true),
        Param('c', PImm(2), true)]
    case RLdr => [Param('d', PReg, false), Param('a', PByteRel(22), false)]
    case RCopy => [Param('d', PReg, false), Param('S', PReg, false)]
    case RAddReg => [Param('d', PNull, false), Param('a', PReg, false), Param('b', PReg, false),
        Param('c', PBool, true), Param('f', PBool, true)]
    case RAddImm => [Param('d', PNull, false), Param('a', PReg, false), Param('b', PImm(11), false),
        Param('S', PImm(3), true), Param('A', PBool, true), Param('c', PBool, true), Param('f', PBool, true)]
    case RSubReg => [Param('d', PNull, false), Param('a', PReg, false), Param('b', PReg, false),
        Param('B', PBool, true), Param('f', PBool, true)]
    case RSubImm => [Param('d', PNull, false), Param('a', PReg, false), Param('b', PImm(11), false),
        Param('S', PImm(3), true), Param('A', PBool, true), Param('B', PBool, true), Param('f', PBool, true)]
    case RMul => [Param('d', PReg, false), Param('a', PReg, false), Param('b', PReg, false), Param('S', PBool, true),
        Param('f', PBool, true)]
    case RDiv => [Param('d', PReg, false), Param('r', PReg, false), Param('a', PReg, false), Param('b', PReg, false),
        Param('S', PBool, true), Param('f', PBool, true)]
    case RAndReg => [Param('d', PNull, false), Param('a', PReg, false), Param('b', PReg, false),
        Param('f', PBool, true)]
    case RAndImm => [Param('d', PNull, false), Param('a', PReg, false), Param('b', PImm(11), false),
        Param('S', PImm(3), true), Param('A', PBool, true), Param('f', PBool, true)]
    case ROrReg => [Param('d', PNull, false), Param('a', PReg, false), Param('b', PReg, false), Param('f', PBool, true)]
    case ROrImm => [Param('d', PNull, false), Param('a', PReg, false), Param('b', PImm(11), false),
        Param('S', PImm(3), true), Param('A', PBool, true), Param('f', PBool, true)]
    case RXorReg => [Param('d', PNull, false), Param('a', PReg, false), Param('b', PReg, false),
        Param('f', PBool, true)]
    case RXorImm => [Param('d', PNull, false), Param('a', PReg, false), Param('b', PImm(11), false),
        Param('S', PImm(3), true), Param('A', PBool, true), Param('f', PBool, true)]
    case RShl => [Param('d', PNull, false), Param('a', PReg, false), Param('b', PRegImm(7), false),
        Param('f', PBool, true)]
    case RShr => [Param('d', PNull, false), Param('a', PReg, false), Param('b', PRegImm(7), false),
        Param('A', PBool, true), Param('f', PBool, true)]
    case RRot => [Param('d', PNull, false), Param('a', PReg, false), Param('b', PRegImm(7), false),
        Param('f', PBool, true)]
    case RNeg => [Param('d', PReg, false), Param('a', PReg, false), Param('f', PBool, true)]
    case RBswap => [Param('d', PReg, false), Param('a', PReg, false), Param('f', PBool, true)]
    case RSoc => [Param('d', PReg, false), Param('a', PReg, false), Param('b', PReg, false), Param('B', PBool, true)]
    case RSof => [Param('d', PReg, false)]
    case RJmpa => [Param('a', PReg, false)]
    case RJmpr => [Param('a', PRel(22), false)]
    case RCjmpa => [Param('a', PReg, false), Param('b', PReg, false), Param('C', PReg, false)]
    case RCjmpr => [Param('a', PRel(13), false), Param('b', PReg, false), Param('C', PReg, false)]
    case RCalla => [Param('a', PReg, false)]
    case RCallr => [Param('a', PRel(22), false)]
    case RRet => []
    case REret => []
    case RUdf => []
    case RDbg => []
    case RExc => [Param('a', PImm(16), false)]
    case RNop => []
    case RLdm => [Param('d', PReg, false), Param('a', PImm(22), false)]
    case RStm => [Param('d', PImm(22), false), Param('a', PReg, false)]
    case RCmpReg => [Param('a', PReg, false), Param('b', PReg, false), Param('B', PBool, true)]
    case RCmpImm => [Param('a', PReg, false), Param('b', PImm(11), false), Param('S', PImm(3), true),
        Param('A', PBool, true), Param('B', PBool, true)]
  }

  /** Whether a row accepts a size suffix. */
  function SizeModifier(r: Row): Modifier {
    match r
    case RLdi => Absent
    case RLdr => Absent
    case RMul => Absent
    case RJmpa => Absent
    case RJmpr => Absent
    case RCalla => Absent
    case RCallr => Absent
    case RRet => Absent
    case REret => Absent
    case RUdf => Absent
    case RDbg => Absent
    case RExc => Absent
    case RNop => Absent
    case RLdm => Absent
    case RStm => Absent
    case _ => Optional
  }

  /** Whether a row accepts or needs a condition suffix. */
  function ConditionModifier(r: Row): Modifier {
    match r
    case RSoc => Required
    case RSof => Required
    case RCjmpa => Required
    case RCjmpr => Required
    case RJmpa => Optional
    case RJmpr => Optional
    case RCalla => Optional
    case RCallr => Optional
    case _ => Absent
  }

  /** Bits 31 to 26 of the template of a row; rows with two templates take the second when their
      variable operand is an immediate. */
  function Head(r: Row, immediate: bool): string {
    match r
    case RPushs => "110111"
    case RPushp => "110110"
    case RPops => "110101"
    case RPopp => "110100"
    case RLds => "110011"
    case RLdp => "110010"
    case RSts => "110001"
    case RStp => "110000"
    case RLdi => "1110cc"
    case RLdr => "001100"
    case RCopy => "101010"
    case RAddReg => "101001"
    case RAddImm => "1011ss"
    case RSubReg => "101000"
    case RSubImm => "1001ss"
    case RMul => "100011"
    case RDiv => "100010"
    case RAndReg => "101011"
    case RAndImm => "10000A"
    case ROrReg => "010000"
    case ROrImm => "01111A"
    case RXorReg => "001110"
    case RXorImm => "01110A"
    case RShl => if immediate then "011011" else "011010"
    case RShr => if immediate then "011001" else "011000"
    case RRot => if immediate then "010111" else "010110"
    case RNeg => "010101"
    case RBswap => "010100"
    case RSoc => "111100"
    case RSof => "111101"
    case RJmpa => "010011"
    case RJmpr => if immediate then "010001" else "010010"
    case RCjmpa => "001111"
    case RCjmpr => if immediate then "11111c" else "001101"
    case RCalla => "001010"
    case RCallr => if immediate then "001000" else "001001"
    case RRet => "000111"
    case REret => "000110"
    case RUdf => "000000"
    case RDbg => "000010"
    case RExc => "000011"
    case RNop => "000001"
    case RLdm => "000100"
    case RStm => "000101"
    case RCmpReg => "101000"
    case RCmpImm => "1001ss"
  }

  /** Bits 25 to 0 of the template of a row. */
  function Tail(r: Row, immediate: bool): string {
    match r
    case RPushs => "0000000000000000000ssaaaaa"
    case RPushp => "00000000000000ssaaaaabbbbb"
    case RPops => "0000000000000000000ssaaaaa"
    case RPopp => "00000000000000ssaaaaabbbbb"
    case RLds => "0000000000000000ssddddaaaa"
    case RLdp => "000000000000ssddddeeeeaaaa"
    case RSts => "0000000000000000ssaaaabbbb"
    case RStp => "000000000000ssaaaabbbbcccc"
    case RLdi => "aaaaaaaaaaaaaaaabbbbbbdddd"
    case RLdr => "ddddaaaaaaaaaaaaaaaaaaaaaa"
    case RCopy => "0000000000000000ssddddSSSS"
    case RAddReg => "000000000sscfdddddaaaabbbb"
    case RAddImm => "cfdddddaaaaASSSbbbbbbbbbbb"
    case RSubReg => "000000000ssBfdddddaaaabbbb"
    case RSubImm => "BfdddddaaaaASSSbbbbbbbbbbb"
    case RMul => "00000000ssttSfddddaaaabbbb"
    case RDiv => "000000ssSfddddrrrraaaabbbb"
    case RAndReg => "0000000000ssfdddddaaaabbbb"
    case RAndImm => "ssfdddddaaaabbbbbbbbbbbSSS"
    case ROrReg => "0000000000ssfdddddaaaabbbb"
    case ROrImm => "ssfdddddaaaabbbbbbbbbbbSSS"
    case RXorReg => "0000000000ssfdddddaaaabbbb"
    case RXorImm => "ssfdddddaaaabbbbbbbbbbbSSS"
    case RShl => if immediate then "0000000ssfdddddaaaabbbbbbb" else "0000000000ssfdddddaaaabbbb"
    case RShr => if immediate then "000000ssAfdddddaaaabbbbbbb" else "000000000ssAfdddddaaaabbbb"
    case RRot => if immediate then "0000000ssfdddddaaaabbbbbbb" else "0000000000ssfdddddaaaabbbb"
    case RNeg => "000000000000000ssfddddaaaa"
    case RBswap => "000000000000000ssfddddaaaa"
    case RSoc => "0000000ccccBssddddaaaabbbb"
    case RSof => "0000000000000000ccccssdddd"
    case RJmpa => "000000000000000000ccccaaaa"
    case RJmpr => if immediate then "ccccaaaaaaaaaaaaaaaaaaaaaa" else "000000000000000000ccccaaaa"
    case RCjmpa => "00000000ccccssaaaabbbbCCCC"
    case RCjmpr => if immediate then "cccssbbbbCCCCaaaaaaaaaaaaa" else "00000000ccccssaaaabbbbCCCC"
    case RCalla => "000000000000000000ccccaaaa"
    case RCallr => if immediate then "ccccaaaaaaaaaaaaaaaaaaaaaa" else "000000000000000000ccccaaaa"
    case RRet => "00000000000000000000000000"
    case REret => "00000000000000000000000000"
    case RUdf => "00000000000000000000000000"
    case RDbg => "00000000000000000000000000"
    case RExc => "0000000000aaaaaaaaaaaaaaaa"
    case RNop => "00000000000000000000000000"
    case RLdm => "ddddaaaaaaaaaaaaaaaaaaaaaa"
    case RStm => "aaaadddddddddddddddddddddd"
    case RCmpReg => "000000000ssB111111aaaabbbb"
    case RCmpImm => "B111111aaaaASSSbbbbbbbbbbb"
  }

  function Template(r: Row, immediate: bool): string {
    Head(r, immediate) + Tail(r, immediate)
  }

  /** The emulator's arm a row is meant for. */
  function Target(r: Row, immediate: bool): Arm {
    match r
    case RPushs => PUSHS
    case RPushp => PUSHP
    case RPops => POPS
    case RPopp => POPP
    case RLds => LDS
    case RLdp => LDP
    case RSts => STS
    case RStp => STP
    case RLdi => LDI
    case RLdr => LDR
    case RCopy => COPY
    case RAddReg => ADD_REG
    case RAddImm => ADD_IMM
    case RSubReg => SUB_REG
    case RSubImm => SUB_IMM
    case RMul => MUL
    case RDiv => DIV
    case RAndReg => AND_REG
    case RAndImm => AND_IMM
    case ROrReg => OR_REG
    case ROrImm => OR_IMM
    case RXorReg => XOR_REG
    case RXorImm => XOR_IMM
    case RShl => if immediate then SHL_IMM else SHL_REG
    case RShr => if immediate then SHR_IMM else SHR_REG
    case RRot => if immediate then ROT_IMM else ROT_REG
    case RNeg => NEG
    case RBswap => BSWAP
    case RSoc => SOC
    case RSof => SOF
    case RJmpa => JMPA
    case RJmpr => if immediate then JMPR_REL else JMPR_REG
    case RCjmpa => CJMPA
    case RCjmpr => if immediate then CJMPR_REL else CJMPR_REG
    case RCalla => CALLA
    case RCallr => if immediate then CALLR_REL else CALLR_REG
    case RRet => RET
    case REret => ERET
    case RUdf => UDF
    case RDbg => DBG
    case RExc => EXC
    case RNop => NOP
    case RLdm => LDM
    case RStm => STM
    case RCmpReg => SUB_REG
    case RCmpImm => SUB_IMM
  }

  predicate IsPseudo(r: Row) {
    r.RCmpReg? || r.RCmpImm?
  }

  // The sections of the table; used to split proofs over all rows.

  predicate StackRow(r: Row) {
    r.RPushs? || r.RPushp? || r.RPops? || r.RPopp?
  }

  predicate MemoryRow(r: Row) {
    r.RLds? || r.RLdp? || r.RSts? || r.RStp?
  }

  predicate MoveRow(r: Row) {
    r.RLdi? || r.RLdr? || r.RCopy?
  }

  predicate SumRow(r: Row) {
    r.RAddReg? || r.RAddImm? || r.RSubReg? || r.RSubImm?
  }

  predicate ProductRow(r: Row) {
    r.RMul? || r.RDiv?
  }

  predicate ConjunctionRow(r: Row) {
    r.RAndReg? || r.RAndImm?
  }

  predicate DisjunctionRow(r: Row) {
    r.ROrReg? || r.ROrImm? || r.RXorReg? || r.RXorImm?
  }

  predicate ShiftRow(r: Row) {
    r.RShl? || r.RShr?
  }

  predicate RotateRow(r: Row) {
    r.RRot?
  }

  predicate SingleRow(r: Row) {
    r.RNeg? || r.RBswap?
  }

  predicate SetRow(r: Row) {
    r.RSoc? || r.RSof?
  }

  predicate JumpRow(r: Row) {
    r.RJmpa? || r.RJmpr?
  }

  predicate CompareRow(r: Row) {
    r.RCjmpa? || r.RCjmpr?
  }

  predicate CallRow(r: Row) {
    r.RCalla? || r.RCallr?
  }

  predicate ReturnRow(r: Row) {
    r.RRet? || r.REret?
  }

  predicate TrapRow(r: Row) {
    r.RUdf? || r.RDbg?
  }

  predicate PlainRow(r: Row) {
    r.RExc? || r.RNop?
  }

  predicate ReadRow(r: Row) {
    r.RLdm?
  }

  predicate WriteRow(r: Row) {
    r.RStm?
  }

  predicate RowAgrees(r: Row, immediate: bool) {
    Head(r, immediate) == OpcodeText(Target(r, immediate)) && Tail(r, immediate) == OperandText(Target(r, immediate))
  }

  lemma StackAgrees(r: Row, immediate: bool)
    requires StackRow(r)
    ensures RowAgrees(r, immediate)
  {
  }

  lemma MemoryAgrees(r: Row, immediate: bool)
    requires MemoryRow(r)
    ensures RowAgrees(r, immediate)
  {
  }

  lemma MoveAgrees(r: Row, immediate: bool)
    requires MoveRow(r)
    ensures RowAgrees(r, immediate)
  {
  }

  lemma SumAgrees(r: Row, immediate: bool)
    requires SumRow(r)
    ensures RowAgrees(r, immediate)
  {
  }

  lemma ProductAgrees(r: Row, immediate: bool)
    requires ProductRow(r)
    ensures RowAgrees(r, immediate)
  {
  }

  lemma ConjunctionAgrees(r: Row, immediate: bool)
    requires ConjunctionRow(r)
    ensures RowAgrees(r, immediate)
  {
  }

  lemma DisjunctionAgrees(r: Row, immediate: bool)
    requires DisjunctionRow(r)
    ensures RowAgrees(r, immediate)
  {
  }

  lemma ShiftAgrees(r: Row, immediate: bool)
    requires ShiftRow(r)
    ensures RowAgrees(r, immediate)
  {
  }

  lemma RotateAgrees(r: Row, immediate: bool)
    requires RotateRow(r)
    ensures RowAgrees(r, immediate)
  {
  }

  lemma SingleAgrees(r: Row, immediate: bool)
    requires SingleRow(r)
    ensures RowAgrees(r, immediate)
  {
  }

  lemma SetAgrees(r: Row, immediate: bool)
    requires SetRow(r)
    ensures RowAgrees(r, immediate)
  {
  }

  lemma JumpAgrees(r: Row, immediate: bool)
    requires JumpRow(r)
    ensures RowAgrees(r, immediate)
  {
  }

  lemma CompareAgrees(r: Row, immediate: bool)
    requires CompareRow(r)
    ensures RowAgrees(r, immediate)
  {
  }

  lemma CallAgrees(r: Row, immediate: bool)
    requires CallRow(r)
    ensures RowAgrees(r, immediate)
  {
  }

  lemma ReturnAgrees(r: Row, immediate: bool)
    requires ReturnRow(r)
    ensures RowAgrees(r, immediate)
  {
  }

  lemma TrapAgrees(r: Row, immediate: bool)
    requires TrapRow(r)
    ensures RowAgrees(r, immediate)
  {
  }

  lemma PlainAgrees(r: Row, immediate: bool)
    requires PlainRow(r)
    ensures RowAgrees(r, immediate)
  {
  }

  lemma ReadAgrees(r: Row, immediate: bool)
    requires ReadRow(r)
    ensures RowAgrees(r, immediate)
  {
  }

  lemma WriteAgrees(r: Row, immediate: bool)
    requires WriteRow(r)
    ensures RowAgrees(r, immediate)
  {
  }

  /** The two tables, written down separately for the two programs, agree. */
  lemma TablesAgree(r: Row, immediate: bool)
    requires !IsPseudo(r)
    ensures Template(r, immediate) == ArmTemplate(Target(r, immediate))
  {
    if StackRow(r) {
      StackAgrees(r, immediate);
    } else if MemoryRow(r) {
      MemoryAgrees(r, immediate);
    } else if MoveRow(r) {
      MoveAgrees(r, immediate);
    } else if SumRow(r) {
      SumAgrees(r, immediate);
    } else if ProductRow(r) {
      ProductAgrees(r, immediate);
    } else if ConjunctionRow(r) {
      ConjunctionAgrees(r, immediate);
    } else if DisjunctionRow(r) {
      DisjunctionAgrees(r, immediate);
    } else if ShiftRow(r) {
      ShiftAgrees(r, immediate);
    } else if RotateRow(r) {
      RotateAgrees(r, immediate);
    } else if SingleRow(r) {
      SingleAgrees(r, immediate);
    } else if SetRow(r) {
      SetAgrees(r, immediate);
    } else if JumpRow(r) {
      JumpAgrees(r, immediate);
    } else if CompareRow(r) {
      CompareAgrees(r, immediate);
    } else if CallRow(r) {
      CallAgrees(r, immediate);
    } else if ReturnRow(r) {
      ReturnAgrees(r, immediate);
    } else if TrapRow(r) {
      TrapAgrees(r, immediate);
    } else if PlainRow(r) {
      PlainAgrees(r, immediate);
    } else if ReadRow(r) {
      ReadAgrees(r, immediate);
    } else {
      WriteAgrees(r, immediate);
    }
  }

  lemma PseudoLength(r: Row, immediate: bool)
    requires IsPseudo(r)
    ensures |Template(r, immediate)| == 32
  {
  }

  lemma TemplateSize(r: Row, immediate: bool)
    ensures |Template(r, immediate)| == 32
  {
    if IsPseudo(r) {
      PseudoLength(r, immediate);
    } else {
      TablesAgree(r, immediate);
      TemplateLength(Target(r, immediate));
    }
  }
}
