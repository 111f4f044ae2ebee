/** The instruction each row of the assembler's table means, and the proof that its word says so. */
module Meaning {
  import opened Bits
  import opened Isa
  import opened Table
  import opened Operands
  import opened Machine
  import T = Templates
  import D = Decoder
  import E = Encoder

  // Operands by position, as the program was written.

  predicate IsReg(b: Bound, k: nat) {
    k < |b.slots| && b.slots[k].Some? && b.slots[k].value.Register?
  }

  function RegAt(b: Bound, k: nat): Reg {
    if IsReg(b, k) then b.slots[k].value.r.id else 0
  }

  function NullAt(b: Bound, k: nat): Option<Reg> {
    if IsReg(b, k) then Some(RegAt(b, k)) else None
  }

  function ImmAt(b: Bound, k: nat): u64 {
    if k < |b.slots| && b.slots[k].Some? && b.slots[k].value.Immediate? then b.slots[k].value.v else 0
  }

  predicate FlagAt(b: Bound, k: nat) {
    ImmAt(b, k) % 2 == 1
  }

  /** A number of instructions or bytes in a 22-bit or a 13-bit signed field. */
  function FarAt(b: Bound, k: nat): rel22 {
    Signed(ImmAt(b, k), 0x40_0000)
  }

  function NearAt(b: Bound, k: nat): rel13 {
    Signed(ImmAt(b, k), 0x2000)
  }

  /** An 11-bit immediate with the shift factor and sign extension written after it. */
  function ShiftedAt(b: Bound, k: nat): AluRhs {
    AluImm(ImmAt(b, k) % 0x800, ImmAt(b, k + 1) % 8, FlagAt(b, k + 2))
  }

  function AmountAt(b: Bound, k: nat): ShiftRhs {
    if IsReg(b, k) then ShiftReg(RegAt(b, k)) else ShiftImm(ImmAt(b, k) % 0x80)
  }

  predicate Conditioned(r: Row, b: Bound) {
    ConditionModifier(r).Required? ==> b.cond.Some?
  }

  /** The instruction a row with these operands stands for. */
  function Meant(r: Row, b: Bound): Instr
    requires Conditioned(r, b)
  {
    match r
    case RPushs => Pushs(b.s, NullAt(b, 0))
    case RPushp => Pushp(b.s, NullAt(b, 0), NullAt(b, 1))
    case RPops => Pops(b.s, NullAt(b, 0))
    case RPopp => Popp(b.s, NullAt(b, 0), NullAt(b, 1))
    case RLds => Lds(b.s, RegAt(b, 0), RegAt(b, 1))
    case RLdp => Ldp(b.s, RegAt(b, 0), RegAt(b, 1), RegAt(b, 2))
    case RSts => Sts(b.s, RegAt(b, 0), RegAt(b, 1))
    case RStp => Stp(b.s, RegAt(b, 0), RegAt(b, 1), RegAt(b, 2))
    case RLdi => Ldi(RegAt(b, 0), ImmAt(b, 1) % 0x1_0000, ImmAt(b, 2) % 0x40, ImmAt(b, 3) % 4)
    case RLdr => Ldr(RegAt(b, 0), FarAt(b, 1))
    case RCopy => Copy(b.s, RegAt(b, 0), RegAt(b, 1))
    case RAddReg => Add(b.s, NullAt(b, 0), RegAt(b, 1), AluReg(RegAt(b, 2)), FlagAt(b, 3), FlagAt(b, 4))
    case RAddImm => Add(b.s, NullAt(b, 0), RegAt(b, 1), ShiftedAt(b, 2), FlagAt(b, 5), FlagAt(b, 6))
    case RSubReg => Sub(b.s, NullAt(b, 0), RegAt(b, 1), AluReg(RegAt(b, 2)), FlagAt(b, 3), FlagAt(b, 4))
    case RSubImm => Sub(b.s, NullAt(b, 0), RegAt(b, 1), ShiftedAt(b, 2), FlagAt(b, 5), FlagAt(b, 6))
    case RMul => Mul(b.s, b.t, RegAt(b, 0), RegAt(b, 1), RegAt(b, 2), FlagAt(b, 3), FlagAt(b, 4))
    case RDiv => Div(b.s, RegAt(b, 0), RegAt(b, 1), RegAt(b, 2), RegAt(b, 3), FlagAt(b, 4), FlagAt(b, 5))
    case RAndReg => Logic(AND, b.s, NullAt(b, 0), RegAt(b, 1), AluReg(RegAt(b, 2)), FlagAt(b, 3))
    case RAndImm => Logic(AND, b.s, NullAt(b, 0), RegAt(b, 1), ShiftedAt(b, 2), FlagAt(b, 5))
    case ROrReg => Logic(OR, b.s, NullAt(b, 0), RegAt(b, 1), AluReg(RegAt(b, 2)), FlagAt(b, 3))
    case ROrImm => Logic(OR, b.s, NullAt(b, 0), RegAt(b, 1), ShiftedAt(b, 2), FlagAt(b, 5))
    case RXorReg => Logic(XOR, b.s, NullAt(b, 0), RegAt(b, 1), AluReg(RegAt(b, 2)), FlagAt(b, 3))
    case RXorImm => Logic(XOR, b.s, NullAt(b, 0), RegAt(b, 1), ShiftedAt(b, 2), FlagAt(b, 5))
    case RShl => ShiftLeft(b.s, NullAt(b, 0), RegAt(b, 1), AmountAt(b, 2), FlagAt(b, 3))
    case RShr => ShiftRight(b.s, NullAt(b, 0), RegAt(b, 1), AmountAt(b, 2), FlagAt(b, 3), FlagAt(b, 4))
    case RRot => Rotate(b.s, NullAt(b, 0), RegAt(b, 1), AmountAt(b, 2), FlagAt(b, 3))
    case RNeg => Isa.Neg(b.s, RegAt(b, 0), RegAt(b, 1), FlagAt(b, 2))
    case RBswap => Bswap(b.s, RegAt(b, 0), RegAt(b, 1), FlagAt(b, 2))
    case RSoc => Soc(b.cond.value, FlagAt(b, 3), b.s, RegAt(b, 0), RegAt(b, 1), RegAt(b, 2))
    case RSof => Sof(b.cond.value, b.s, RegAt(b, 0))
    case RJmpa => Jmpa(b.cond, RegAt(b, 0))
    case RJmpr => Jmpr(b.cond, if IsReg(b, 0) then JumpReg(RegAt(b, 0)) else JumpRel(FarAt(b, 0)))
    case RCjmpa => Cjmpa(b.cond.value, b.s, RegAt(b, 0), RegAt(b, 1), RegAt(b, 2))
    case RCjmpr => Cjmpr(b.cond.value, b.s, if IsReg(b, 0) then BranchReg(RegAt(b, 0))
        else BranchRel(NearAt(b, 0)), RegAt(b, 1), RegAt(b, 2))
    case RCalla => Calla(b.cond, RegAt(b, 0))
    case RCallr => Callr(b.cond, if IsReg(b, 0) then JumpReg(RegAt(b, 0)) else JumpRel(FarAt(b, 0)))
    case RRet => Ret
    case REret => Eret
    case RUdf => Udf
    case RDbg => Dbg
    case RExc => Exc(ImmAt(b, 0) % 0x1_0000)
    case RNop => Nop
    case RLdm => Ldm(RegAt(b, 0), ImmAt(b, 1) % 0x40_0000)
    case RStm => Stm(ImmAt(b, 0) % 0x40_0000, RegAt(b, 1))
    case RCmpReg => Sub(b.s, None, RegAt(b, 0), AluReg(RegAt(b, 1)), FlagAt(b, 2), true)
    case RCmpImm => Sub(b.s, None, RegAt(b, 0), ShiftedAt(b, 1), FlagAt(b, 4), true)
  }

  // ------------------------------------------------- letters and positions

  /** f binds the letter of p to operand k, which suits p. */
  ghost predicate Sees(f: T.Env, p: Param, b: Bound, k: nat) {
    k < |b.slots| && Suits(p, b.slots[k]) && f(p.letter) == SlotCode(b.slots[k])
  }

  /** f binds the letters of a row's templates as the table says. */
  ghost predicate Seen(r: Row, b: Bound, f: T.Env) {
    && (forall k :: 0 <= k < |Params(r)| ==> Sees(f, Params(r)[k], b, k))
    && f('s') == SizeCode(b.s) && f('t') == SizeCode(b.t)
    && (!ConditionModifier(r).Absent? ==> f('c') == NullCondCode(b.cond))
  }

  /** No letter means two things. */
  ghost predicate Lettered(r: Row) {
    && Distinct(Params(r))
    && (forall k :: 0 <= k < |Params(r)| ==> Params(r)[k].letter != 's' && Params(r)[k].letter != 't')
    && (!ConditionModifier(r).Absent? ==> forall k :: 0 <= k < |Params(r)| ==> Params(r)[k].letter != 'c')
  }

  lemma ProductLettered(r: Row)
    requires ProductRow(r)
    ensures Lettered(r)
  {
  }

  lemma UnconditionedLettered(r: Row)
    requires ConditionModifier(r).Absent? && !LogicRow(r) && !ProductRow(r)
    ensures Lettered(r)
  {
  }

  predicate LogicRow(r: Row) {
    ConjunctionRow(r) || DisjunctionRow(r) || ShiftRow(r) || RotateRow(r) || SumRow(r)
  }

  lemma SumLettered(r: Row)
    requires SumRow(r)
    ensures Lettered(r)
  {
  }

  lemma ConjunctionLettered(r: Row)
    requires ConjunctionRow(r)
    ensures Lettered(r)
  {
  }

  lemma DisjunctionLettered(r: Row)
    requires DisjunctionRow(r)
    ensures Lettered(r)
  {
  }

  lemma ShiftLettered(r: Row)
    requires ShiftRow(r) || RotateRow(r)
    ensures Lettered(r)
  {
  }

  lemma ConditionedLettered(r: Row)
    requires !ConditionModifier(r).Absent?
    ensures Lettered(r)
  {
  }

  lemma RowsLettered(r: Row)
    ensures Lettered(r)
  {
    if SumRow(r) {
      SumLettered(r);
    } else if ProductRow(r) {
      ProductLettered(r);
    } else if ShiftRow(r) || RotateRow(r) {
      ShiftLettered(r);
    } else if ConjunctionRow(r) {
      ConjunctionLettered(r);
    } else if DisjunctionRow(r) {
      DisjunctionLettered(r);
    } else if ConditionModifier(r).Absent? {
      UnconditionedLettered(r);
    } else {
      ConditionedLettered(r);
    }
  }

  lemma BindingsSeen(r: Row, b: Bound)
    requires Fitting(Params(r), b)
    ensures Seen(r, b, Bindings(Params(r), b))
  {
    RowsLettered(r);
    BoundLetters(Params(r), b);
  }

  /** The variable operand decides between the two templates of a row. */
  predicate Chosen(r: Row, b: Bound, immediate: bool) {
    match r
    case RShl => immediate == !IsReg(b, 2)
    case RShr => immediate == !IsReg(b, 2)
    case RRot => immediate == !IsReg(b, 2)
    case RJmpr => immediate == !IsReg(b, 0)
    case RCjmpr => immediate == !IsReg(b, 0)
    case RCallr => immediate == !IsReg(b, 0)
    case _ => true
  }

  lemma TemplateChosen(r: Row, b: Bound)
    requires Fitting(Params(r), b)
    ensures Chosen(r, b, TakesImmediate(Params(r), b.slots))
  {
  }

  /** Read through the letters of f, the row's arm is the instruction meant. */
  ghost predicate Says(r: Row, b: Bound, immediate: bool, f: T.Env) {
    && Conditioned(r, b) && E.Encodable(Target(r, immediate), f)
    && D.Build(Target(r, immediate), f) == D.Decoded(Meant(r, b))
  }

  lemma PushsSays(b: Bound, f: T.Env)
    requires Seen(RPushs, b, f)
    ensures Says(RPushs, b, false, f)
  {
    var ps := Params(RPushs);
    assert Sees(f, ps[0], b, 0);
  }

  lemma PushpSays(b: Bound, f: T.Env)
    requires Seen(RPushp, b, f)
    ensures Says(RPushp, b, false, f)
  {
    var ps := Params(RPushp);
    assert Sees(f, ps[0], b, 0) && Sees(f, ps[1], b, 1);
  }

  lemma PopsSays(b: Bound, f: T.Env)
    requires Seen(RPops, b, f)
    ensures Says(RPops, b, false, f)
  {
    var ps := Params(RPops);
    assert Sees(f, ps[0], b, 0);
  }

  lemma PoppSays(b: Bound, f: T.Env)
    requires Seen(RPopp, b, f)
    ensures Says(RPopp, b, false, f)
  {
    var ps := Params(RPopp);
    assert Sees(f, ps[0], b, 0) && Sees(f, ps[1], b, 1);
  }

  lemma LdsSays(b: Bound, f: T.Env)
    requires Seen(RLds, b, f)
    ensures Says(RLds, b, false, f)
  {
    var ps := Params(RLds);
    assert Sees(f, ps[0], b, 0) && Sees(f, ps[1], b, 1);
  }

  lemma LdpSays(b: Bound, f: T.Env)
    requires Seen(RLdp, b, f)
    ensures Says(RLdp, b, false, f)
  {
    var ps := Params(RLdp);
    assert Sees(f, ps[0], b, 0) && Sees(f, ps[1], b, 1) && Sees(f, ps[2], b, 2);
  }

  lemma StsSays(b: Bound, f: T.Env)
    requires Seen(RSts, b, f)
    ensures Says(RSts, b, false, f)
  {
    var ps := Params(RSts);
    assert Sees(f, ps[0], b, 0) && Sees(f, ps[1], b, 1);
  }

  lemma StpSays(b: Bound, f: T.Env)
    requires Seen(RStp, b, f)
    ensures Says(RStp, b, false, f)
  {
    var ps := Params(RStp);
    assert Sees(f, ps[0], b, 0) && Sees(f, ps[1], b, 1) && Sees(f, ps[2], b, 2);
  }

  lemma LdiSays(b: Bound, f: T.Env)
    requires Seen(RLdi, b, f)
    ensures Says(RLdi, b, false, f)
  {
    var ps := Params(RLdi);
    assert Sees(f, ps[0], b, 0) && Sees(f, ps[1], b, 1) && Sees(f, ps[2], b, 2) && Sees(f, ps[3], b, 3);
  }

  lemma LdrSays(b: Bound, f: T.Env)
    requires Seen(RLdr, b, f)
    ensures Says(RLdr, b, false, f)
  {
    var ps := Params(RLdr);
    assert Sees(f, ps[0], b, 0) && Sees(f, ps[1], b, 1);
  }

  lemma CopySays(b: Bound, f: T.Env)
    requires Seen(RCopy, b, f)
    ensures Says(RCopy, b, false, f)
  {
    var ps := Params(RCopy);
    assert Sees(f, ps[0], b, 0) && Sees(f, ps[1], b, 1);
  }

  lemma AddRegSays(b: Bound, f: T.Env)
    requires Seen(RAddReg, b, f)
    ensures Says(RAddReg, b, false, f)
  {
    var ps := Params(RAddReg);
    assert Sees(f, ps[0], b, 0) && Sees(f, ps[1], b, 1) && Sees(f, ps[2], b, 2) && Sees(f, ps[3], b, 3)
        && Sees(f, ps[4], b, 4);
  }

  lemma AddImmSays(b: Bound, f: T.Env)
    requires Seen(RAddImm, b, f)
    ensures Says(RAddImm, b, false, f)
  {
    var ps := Params(RAddImm);
    assert Sees(f, ps[0], b, 0) && Sees(f, ps[1], b, 1) && Sees(f, ps[2], b, 2) && Sees(f, ps[3], b, 3)
        && Sees(f, ps[4], b, 4) && Sees(f, ps[5], b, 5) && Sees(f, ps[6], b, 6);
  }

  lemma SubRegSays(b: Bound, f: T.Env)
    requires Seen(RSubReg, b, f)
    ensures Says(RSubReg, b, false, f)
  {
    var ps := Params(RSubReg);
    assert Sees(f, ps[0], b, 0) && Sees(f, ps[1], b, 1) && Sees(f, ps[2], b, 2) && Sees(f, ps[3], b, 3)
        && Sees(f, ps[4], b, 4);
  }

  lemma SubImmSays(b: Bound, f: T.Env)
    requires Seen(RSubImm, b, f)
    ensures Says(RSubImm, b, false, f)
  {
    var ps := Params(RSubImm);
    assert Sees(f, ps[0], b, 0) && Sees(f, ps[1], b, 1) && Sees(f, ps[2], b, 2) && Sees(f, ps[3], b, 3)
        && Sees(f, ps[4], b, 4) && Sees(f, ps[5], b, 5) && Sees(f, ps[6], b, 6);
  }

  lemma MulSays(b: Bound, f: T.Env)
    requires Seen(RMul, b, f)
    ensures Says(RMul, b, false, f)
  {
    var ps := Params(RMul);
    assert Sees(f, ps[0], b, 0) && Sees(f, ps[1], b, 1) && Sees(f, ps[2], b, 2) && Sees(f, ps[3], b, 3)
        && Sees(f, ps[4], b, 4);
  }

  lemma DivSays(b: Bound, f: T.Env)
    requires Seen(RDiv, b, f)
    ensures Says(RDiv, b, false, f)
  {
    var ps := Params(RDiv);
    assert Sees(f, ps[0], b, 0) && Sees(f, ps[1], b, 1) && Sees(f, ps[2], b, 2) && Sees(f, ps[3], b, 3)
        && Sees(f, ps[4], b, 4) && Sees(f, ps[5], b, 5);
  }

  lemma AndRegSays(b: Bound, f: T.Env)
    requires Seen(RAndReg, b, f)
    ensures Says(RAndReg, b, false, f)
  {
    var ps := Params(RAndReg);
    assert Sees(f, ps[0], b, 0) && Sees(f, ps[1], b, 1) && Sees(f, ps[2], b, 2) && Sees(f, ps[3], b, 3);
  }

  lemma AndImmSays(b: Bound, f: T.Env)
    requires Seen(RAndImm, b, f)
    ensures Says(RAndImm, b, false, f)
  {
    var ps := Params(RAndImm);
    assert Sees(f, ps[0], b, 0) && Sees(f, ps[1], b, 1) && Sees(f, ps[2], b, 2) && Sees(f, ps[3], b, 3)
        && Sees(f, ps[4], b, 4) && Sees(f, ps[5], b, 5);
  }

  lemma OrRegSays(b: Bound, f: T.Env)
    requires Seen(ROrReg, b, f)
    ensures Says(ROrReg, b, false, f)
  {
    var ps := Params(ROrReg);
    assert Sees(f, ps[0], b, 0) && Sees(f, ps[1], b, 1) && Sees(f, ps[2], b, 2) && Sees(f, ps[3], b, 3);
  }

  lemma OrImmSays(b: Bound, f: T.Env)
    requires Seen(ROrImm, b, f)
    ensures Says(ROrImm, b, false, f)
  {
    var ps := Params(ROrImm);
    assert Sees(f, ps[0], b, 0) && Sees(f, ps[1], b, 1) && Sees(f, ps[2], b, 2) && Sees(f, ps[3], b, 3)
        && Sees(f, ps[4], b, 4) && Sees(f, ps[5], b, 5);
  }

  lemma XorRegSays(b: Bound, f: T.Env)
    requires Seen(RXorReg, b, f)
    ensures Says(RXorReg, b, false, f)
  {
    var ps := Params(RXorReg);
    assert Sees(f, ps[0], b, 0) && Sees(f, ps[1], b, 1) && Sees(f, ps[2], b, 2) && Sees(f, ps[3], b, 3);
  }

  lemma XorImmSays(b: Bound, f: T.Env)
    requires Seen(RXorImm, b, f)
    ensures Says(RXorImm, b, false, f)
  {
    var ps := Params(RXorImm);
    assert Sees(f, ps[0], b, 0) && Sees(f, ps[1], b, 1) && Sees(f, ps[2], b, 2) && Sees(f, ps[3], b, 3)
        && Sees(f, ps[4], b, 4) && Sees(f, ps[5], b, 5);
  }

  lemma ShlSays(b: Bound, immediate: bool, f: T.Env)
    requires Seen(RShl, b, f) && Chosen(RShl, b, immediate)
    ensures Says(RShl, b, immediate, f)
  {
    var ps := Params(RShl);
    assert Sees(f, ps[0], b, 0) && Sees(f, ps[1], b, 1) && Sees(f, ps[2], b, 2) && Sees(f, ps[3], b, 3);
  }

  lemma ShrSays(b: Bound, immediate: bool, f: T.Env)
    requires Seen(RShr, b, f) && Chosen(RShr, b, immediate)
    ensures Says(RShr, b, immediate, f)
  {
    var ps := Params(RShr);
    assert Sees(f, ps[0], b, 0) && Sees(f, ps[1], b, 1) && Sees(f, ps[2], b, 2) && Sees(f, ps[3], b, 3)
        && Sees(f, ps[4], b, 4);
  }

  lemma RotSays(b: Bound, immediate: bool, f: T.Env)
    requires Seen(RRot, b, f) && Chosen(RRot, b, immediate)
    ensures Says(RRot, b, immediate, f)
  {
    var ps := Params(RRot);
    assert Sees(f, ps[0], b, 0) && Sees(f, ps[1], b, 1) && Sees(f, ps[2], b, 2) && Sees(f, ps[3], b, 3);
  }

  lemma NegSays(b: Bound, f: T.Env)
    requires Seen(RNeg, b, f)
    ensures Says(RNeg, b, false, f)
  {
    var ps := Params(RNeg);
    assert Sees(f, ps[0], b, 0) && Sees(f, ps[1], b, 1) && Sees(f, ps[2], b, 2);
  }

  lemma BswapSays(b: Bound, f: T.Env)
    requires Seen(RBswap, b, f)
    ensures Says(RBswap, b, false, f)
  {
    var ps := Params(RBswap);
    assert Sees(f, ps[0], b, 0) && Sees(f, ps[1], b, 1) && Sees(f, ps[2], b, 2);
  }

  lemma SocSays(b: Bound, f: T.Env)
    requires Seen(RSoc, b, f) && b.cond.Some?
    ensures Says(RSoc, b, false, f)
  {
    var ps := Params(RSoc);
    assert Sees(f, ps[0], b, 0) && Sees(f, ps[1], b, 1) && Sees(f, ps[2], b, 2) && Sees(f, ps[3], b, 3);
  }

  lemma SofSays(b: Bound, f: T.Env)
    requires Seen(RSof, b, f) && b.cond.Some?
    ensures Says(RSof, b, false, f)
  {
    var ps := Params(RSof);
    assert Sees(f, ps[0], b, 0);
  }

  lemma JmpaSays(b: Bound, f: T.Env)
    requires Seen(RJmpa, b, f)
    ensures Says(RJmpa, b, false, f)
  {
    var ps := Params(RJmpa);
    assert Sees(f, ps[0], b, 0);
  }

  lemma JmprSays(b: Bound, immediate: bool, f: T.Env)
    requires Seen(RJmpr, b, f) && Chosen(RJmpr, b, immediate)
    ensures Says(RJmpr, b, immediate, f)
  {
    var ps := Params(RJmpr);
    assert Sees(f, ps[0], b, 0);
  }

  lemma CjmpaSays(b: Bound, f: T.Env)
    requires Seen(RCjmpa, b, f) && b.cond.Some?
    ensures Says(RCjmpa, b, false, f)
  {
    var ps := Params(RCjmpa);
    assert Sees(f, ps[0], b, 0) && Sees(f, ps[1], b, 1) && Sees(f, ps[2], b, 2);
  }

  lemma CjmprRegSays(b: Bound, f: T.Env)
    requires Seen(RCjmpr, b, f) && b.cond.Some? && Chosen(RCjmpr, b, false)
    ensures Says(RCjmpr, b, false, f)
  {
    var ps := Params(RCjmpr);
    assert Sees(f, ps[0], b, 0) && Sees(f, ps[1], b, 1) && Sees(f, ps[2], b, 2);
  }

  lemma CjmprRelSays(b: Bound, f: T.Env)
    requires Seen(RCjmpr, b, f) && b.cond.Some? && Chosen(RCjmpr, b, true)
    ensures Says(RCjmpr, b, true, f)
  {
    var ps := Params(RCjmpr);
    assert Sees(f, ps[0], b, 0) && Sees(f, ps[1], b, 1) && Sees(f, ps[2], b, 2);
  }

  lemma CjmprSays(b: Bound, immediate: bool, f: T.Env)
    requires Seen(RCjmpr, b, f) && b.cond.Some? && Chosen(RCjmpr, b, immediate)
    ensures Says(RCjmpr, b, immediate, f)
  {
    if immediate { CjmprRelSays(b, f); } else { CjmprRegSays(b, f); }
  }

  lemma CallaSays(b: Bound, f: T.Env)
    requires Seen(RCalla, b, f)
    ensures Says(RCalla, b, false, f)
  {
    var ps := Params(RCalla);
    assert Sees(f, ps[0], b, 0);
  }

  lemma CallrSays(b: Bound, immediate: bool, f: T.Env)
    requires Seen(RCallr, b, f) && Chosen(RCallr, b, immediate)
    ensures Says(RCallr, b, immediate, f)
  {
    var ps := Params(RCallr);
    assert Sees(f, ps[0], b, 0);
  }

  lemma RetSays(b: Bound, f: T.Env)
    requires Seen(RRet, b, f)
    ensures Says(RRet, b, false, f)
  {
  }

  lemma EretSays(b: Bound, f: T.Env)
    requires Seen(REret, b, f)
    ensures Says(REret, b, false, f)
  {
  }

  lemma UdfSays(b: Bound, f: T.Env)
    requires Seen(RUdf, b, f)
    ensures Says(RUdf, b, false, f)
  {
  }

  lemma DbgSays(b: Bound, f: T.Env)
    requires Seen(RDbg, b, f)
    ensures Says(RDbg, b, false, f)
  {
  }

  lemma ExcSays(b: Bound, f: T.Env)
    requires Seen(RExc, b, f)
    ensures Says(RExc, b, false, f)
  {
    var ps := Params(RExc);
    assert Sees(f, ps[0], b, 0);
  }

  lemma NopSays(b: Bound, f: T.Env)
    requires Seen(RNop, b, f)
    ensures Says(RNop, b, false, f)
  {
  }

  lemma LdmSays(b: Bound, f: T.Env)
    requires Seen(RLdm, b, f)
    ensures Says(RLdm, b, false, f)
  {
    var ps := Params(RLdm);
    assert Sees(f, ps[0], b, 0) && Sees(f, ps[1], b, 1);
  }

  lemma StmSays(b: Bound, f: T.Env)
    requires Seen(RStm, b, f)
    ensures Says(RStm, b, false, f)
  {
    var ps := Params(RStm);
    assert Sees(f, ps[0], b, 0) && Sees(f, ps[1], b, 1);
  }

  lemma CmpRegSays(b: Bound, f: T.Env)
    requires Seen(RCmpReg, b, f) && f('d') == 31 && f('f') == 1
    ensures Says(RCmpReg, b, false, f)
  {
    var ps := Params(RCmpReg);
    assert Sees(f, ps[0], b, 0) && Sees(f, ps[1], b, 1) && Sees(f, ps[2], b, 2);
  }

  lemma CmpImmSays(b: Bound, f: T.Env)
    requires Seen(RCmpImm, b, f) && f('d') == 31 && f('f') == 1
    ensures Says(RCmpImm, b, false, f)
  {
    var ps := Params(RCmpImm);
    assert Sees(f, ps[0], b, 0) && Sees(f, ps[1], b, 1) && Sees(f, ps[2], b, 2) && Sees(f, ps[3], b, 3)
        && Sees(f, ps[4], b, 4);
  }

  // ----------------------------------------------------- all rows at once

  predicate DataSection(r: Row) {
    StackRow(r) || MemoryRow(r) || MoveRow(r)
  }

  lemma DataSay(r: Row, b: Bound, immediate: bool, f: T.Env)
    requires DataSection(r) && Seen(r, b, f) && Chosen(r, b, immediate) && Conditioned(r, b)
    ensures Says(r, b, immediate, f)
  {
    match r
    case RPushs => PushsSays(b, f);
    case RPushp => PushpSays(b, f);
    case RPops => PopsSays(b, f);
    case RPopp => PoppSays(b, f);
    case RLds => LdsSays(b, f);
    case RLdp => LdpSays(b, f);
    case RSts => StsSays(b, f);
    case RStp => StpSays(b, f);
    case RLdi => LdiSays(b, f);
    case RLdr => LdrSays(b, f);
    case RCopy => CopySays(b, f);
  }

  predicate ArithmeticSection(r: Row) {
    SumRow(r) || ProductRow(r)
  }

  lemma ArithmeticSay(r: Row, b: Bound, immediate: bool, f: T.Env)
    requires ArithmeticSection(r) && Seen(r, b, f) && Chosen(r, b, immediate) && Conditioned(r, b)
    ensures Says(r, b, immediate, f)
  {
    match r
    case RAddReg => AddRegSays(b, f);
    case RAddImm => AddImmSays(b, f);
    case RSubReg => SubRegSays(b, f);
    case RSubImm => SubImmSays(b, f);
    case RMul => MulSays(b, f);
    case RDiv => DivSays(b, f);
  }

  predicate BitwiseSection(r: Row) {
    ConjunctionRow(r) || DisjunctionRow(r) || ShiftRow(r) || RotateRow(r)
  }

  lemma BitwiseSay(r: Row, b: Bound, immediate: bool, f: T.Env)
    requires BitwiseSection(r) && Seen(r, b, f) && Chosen(r, b, immediate) && Conditioned(r, b)
    ensures Says(r, b, immediate, f)
  {
    match r
    case RAndReg => AndRegSays(b, f);
    case RAndImm => AndImmSays(b, f);
    case ROrReg => OrRegSays(b, f);
    case ROrImm => OrImmSays(b, f);
    case RXorReg => XorRegSays(b, f);
    case RXorImm => XorImmSays(b, f);
    case RShl => ShlSays(b, immediate, f);
    case RShr => ShrSays(b, immediate, f);
    case RRot => RotSays(b, immediate, f);
  }

  predicate FlowSection(r: Row) {
    SingleRow(r) || SetRow(r) || JumpRow(r) || CompareRow(r) || CallRow(r)
  }

  lemma FlowSay(r: Row, b: Bound, immediate: bool, f: T.Env)
    requires FlowSection(r) && Seen(r, b, f) && Chosen(r, b, immediate) && Conditioned(r, b)
    ensures Says(r, b, immediate, f)
  {
    match r
    case RNeg => NegSays(b, f);
    case RBswap => BswapSays(b, f);
    case RSoc => SocSays(b, f);
    case RSof => SofSays(b, f);
    case RJmpa => JmpaSays(b, f);
    case RJmpr => JmprSays(b, immediate, f);
    case RCjmpa => CjmpaSays(b, f);
    case RCjmpr => CjmprSays(b, immediate, f);
    case RCalla => CallaSays(b, f);
    case RCallr => CallrSays(b, immediate, f);
  }

  predicate RestSection(r: Row) {
    ReturnRow(r) || TrapRow(r) || PlainRow(r) || ReadRow(r) || WriteRow(r)
  }

  lemma RestSay(r: Row, b: Bound, immediate: bool, f: T.Env)
    requires RestSection(r) && Seen(r, b, f) && Chosen(r, b, immediate) && Conditioned(r, b)
    ensures Says(r, b, immediate, f)
  {
    match r
    case RRet => RetSays(b, f);
    case REret => EretSays(b, f);
    case RUdf => UdfSays(b, f);
    case RDbg => DbgSays(b, f);
    case RExc => ExcSays(b, f);
    case RNop => NopSays(b, f);
    case RLdm => LdmSays(b, f);
    case RStm => StmSays(b, f);
  }

  lemma RowSays(r: Row, b: Bound, immediate: bool, f: T.Env)
    requires !IsPseudo(r) && Seen(r, b, f) && Chosen(r, b, immediate) && Conditioned(r, b)
    ensures Says(r, b, immediate, f)
  {
    if DataSection(r) {
      DataSay(r, b, immediate, f);
    } else if ArithmeticSection(r) {
      ArithmeticSay(r, b, immediate, f);
    } else if BitwiseSection(r) {
      BitwiseSay(r, b, immediate, f);
    } else if FlowSection(r) {
      FlowSay(r, b, immediate, f);
    } else {
      RestSay(r, b, immediate, f);
    }
  }
}
