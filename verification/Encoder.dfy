/**
 The assembler's scatter composed with the emulator's decoder: every operand the
 assembler binds to a letter of a template is the operand the emulator sees.
 */
module Encoder {
  import opened Bits
  import opened Templates
  import opened Isa
  import opened Decoder

  /** The word the assembler writes for an arm's template. */
  function EncodeArm(a: Arm, env: Env): (w: u32)
  {
    TemplateLength(a);
    var t := ArmTemplate(a);
    Below32(Scatter(t, env, |t|), |t|);
    Scatter(t, env, |t|)
  }

  /** At least n bits of t, from bit lo upward, belong to variable c. */
  predicate Has(t: string, c: char, lo: nat, n: nat) {
    lo + n <= |t| && forall j :: lo <= j < lo + n ==> At(t, j) == c
  }

  lemma {:induction false} HasWidth(t: string, c: char, lo: nat, n: nat, i: nat)
    requires Has(t, c, lo, n) && i <= |t|
    ensures Occ(t, c, i) >= if i <= lo then 0 else if i <= lo + n then i - lo else n
  {
    if i > 0 {
      HasWidth(t, c, lo, n, i - 1);
    }
  }

  /** Whatever is bound to the letters of an arm, the emulator selects that arm, and
      sees each operand reduced to the bits the template has for it. */
  lemma DecodeArm(a: Arm, env: Env)
    ensures var w := EncodeArm(a, env);
            && Decode(w) == Build(a, ArmFields(a, w))
            && forall c: char :: IsVariable(c)
                ==> ArmFields(a, w)(c) == env(c) % Pow2(Occ(ArmTemplate(a), c, |ArmTemplate(a)|))
  {
    TemplateLength(a);
    EncodeThenDecode(ArmTemplate(a), env);
    MatchSelects(a, EncodeArm(a, env));
  }

  lemma FieldComesBack(a: Arm, env: Env, c: char)
    requires IsVariable(c)
    ensures ArmFields(a, EncodeArm(a, env))(c) == env(c) % Pow2(Occ(ArmTemplate(a), c, |ArmTemplate(a)|))
  {
    DecodeArm(a, env);
  }

  predicate Same(f: Env, g: Env, c: char, m: int)
    requires m > 0
  {
    f(c) % m == g(c) % m
  }

  /** An operand comes back unchanged modulo the width of its field. */
  lemma FieldReduced(a: Arm, env: Env, c: char, lo: nat, n: nat, m: int)
    requires IsVariable(c) && Has(ArmTemplate(a), c, lo, n) && m == Pow2(n)
    ensures Same(ArmFields(a, EncodeArm(a, env)), env, c, m)
  {
    FieldComesBack(a, env, c);
    var t := ArmTemplate(a);
    HasWidth(t, c, lo, n, |t|);
    ModMod(env(c), n, Occ(t, c, |t|));
  }

  /** An operand that fits its field comes back unchanged. */
  lemma FieldKept(a: Arm, env: Env, c: char, lo: nat, n: nat)
    requires IsVariable(c) && Has(ArmTemplate(a), c, lo, n) && env(c) < Pow2(n)
    ensures ArmFields(a, EncodeArm(a, env))(c) == env(c)
  {
    FieldComesBack(a, env, c);
    var t := ArmTemplate(a);
    HasWidth(t, c, lo, n, |t|);
    Pow2Mono(n, Occ(t, c, |t|));
    SmallMod(env(c), Pow2(Occ(t, c, |t|)));
  }

  lemma SmallMod(x: nat, m: int)
    requires x < m
    ensures x % m == x
  {
  }

  lemma ModMod(x: nat, n: nat, k: nat)
    requires n <= k
    ensures (x % Pow2(k)) % Pow2(n) == x % Pow2(n)
  {
    forall i: nat | i < n ensures Bit((x % Pow2(k)) % Pow2(n), i) == Bit(x % Pow2(n), i) {
      ModBit(x % Pow2(k), n, i);
      ModBit(x, k, i);
      ModBit(x, n, i);
    }
    SameBits((x % Pow2(k)) % Pow2(n), x % Pow2(n), n);
  }

  lemma OperandModuli()
    ensures Pow2(1) == 2 && Pow2(2) == 4 && Pow2(3) == 8 && Pow2(4) == 16 && Pow2(5) == 32 && Pow2(6) == 0x40
    ensures Pow2(7) == 0x80 && Pow2(11) == 0x800 && Pow2(13) == 0x2000 && Pow2(16) == 0x1_0000 && Pow2(22) == 0x40_0000
  {
    Pow2Values();
  }

  /** The assembler encodes a missing register as 31 and a missing condition as 15. */
  predicate Encodable(a: Arm, env: Env) {
    match a
    case PUSHS => env('a') < 32
    case POPS => env('a') < 32
    case PUSHP => env('a') < 32 && env('b') < 32
    case POPP => env('a') < 32 && env('b') < 32
    case ADD_REG => env('d') < 32
    case ADD_IMM => env('d') < 32
    case SUB_REG => env('d') < 32
    case SUB_IMM => env('d') < 32
    case AND_REG => env('d') < 32
    case AND_IMM => env('d') < 32
    case OR_REG => env('d') < 32
    case OR_IMM => env('d') < 32
    case XOR_REG => env('d') < 32
    case XOR_IMM => env('d') < 32
    case SHL_REG => env('d') < 32
    case SHL_IMM => env('d') < 32
    case SHR_REG => env('d') < 32
    case SHR_IMM => env('d') < 32
    case ROT_REG => env('d') < 32
    case ROT_IMM => env('d') < 32
    case SOC => env('c') < 16
    case SOF => env('c') < 16
    case JMPA => env('c') < 16
    case JMPR_REG => env('c') < 16
    case JMPR_REL => env('c') < 16
    case CJMPA => env('c') < 16
    case CJMPR_REG => env('c') < 16
    case CJMPR_REL => env('c') < 16
    case CALLA => env('c') < 16
    case CALLR_REG => env('c') < 16
    case CALLR_REL => env('c') < 16
    case _ => true
  }

  /** A letter's bits in a template: `width` of them from bit `lo` upward.  Codes that stand for no
      register or no condition must come back exactly, other operands modulo their width. */
  datatype Field = Field(letter: char, lo: nat, width: nat, exact: bool)

  function F(letter: char, lo: nat, width: nat): Field {
    Field(letter, lo, width, false)
  }

  function X(letter: char, lo: nat, width: nat): Field {
    Field(letter, lo, width, true)
  }

  /** The operand fields of each arm. */
  function ArmLayout(a: Arm): (fs: seq<Field>)
    ensures |fs| <= 8
  {
    match a
    case PUSHS => [F('s', 5, 2), X('a', 0, 5)]
    case PUSHP => [F('s', 10, 2), X('a', 5, 5), X('b', 0, 5)]
    case POPS => [F('s', 5, 2), X('a', 0, 5)]
    case POPP => [F('s', 10, 2), X('a', 5, 5), X('b', 0, 5)]
    case LDS => [F('s', 8, 2), F('d', 4, 4), F('a', 0, 4)]
    case LDP => [F('s', 12, 2), F('d', 8, 4), F('e', 4, 4), F('a', 0, 4)]
    case STS => [F('s', 8, 2), F('a', 4, 4), F('b', 0, 4)]
    case STP => [F('s', 12, 2), F('a', 8, 4), F('b', 4, 4), F('c', 0, 4)]
    case LDI => [F('c', 26, 2), F('a', 10, 16), F('b', 4, 6), F('d', 0, 4)]
    case LDR => [F('d', 22, 4), F('a', 0, 22)]
    case COPY => [F('s', 8, 2), F('d', 4, 4), F('S', 0, 4)]
    case ADD_REG => [F('s', 15, 2), F('c', 14, 1), F('f', 13, 1), X('d', 8, 5), F('a', 4, 4), F('b', 0, 4)]
    case ADD_IMM => [F('s', 26, 2), F('c', 25, 1), F('f', 24, 1), X('d', 19, 5), F('a', 15, 4), F('A', 14, 1),
        F('S', 11, 3), F('b', 0, 11)]
    case SUB_REG => [F('s', 15, 2), F('B', 14, 1), F('f', 13, 1), X('d', 8, 5), F('a', 4, 4), F('b', 0, 4)]
    case SUB_IMM => [F('s', 26, 2), F('B', 25, 1), F('f', 24, 1), X('d', 19, 5), F('a', 15, 4), F('A', 14, 1),
        F('S', 11, 3), F('b', 0, 11)]
    case MUL => [F('s', 16, 2), F('t', 14, 2), F('S', 13, 1), F('f', 12, 1), F('d', 8, 4), F('a', 4, 4), F('b', 0, 4)]
    case DIV => [F('s', 18, 2), F('S', 17, 1), F('f', 16, 1), F('d', 12, 4), F('r', 8, 4), F('a', 4, 4), F('b', 0, 4)]
    case AND_REG => [F('s', 14, 2), F('f', 13, 1), X('d', 8, 5), F('a', 4, 4), F('b', 0, 4)]
    case AND_IMM => [F('A', 26, 1), F('s', 24, 2), F('f', 23, 1), X('d', 18, 5), F('a', 14, 4), F('b', 3, 11),
        F('S', 0, 3)]
    case OR_REG => [F('s', 14, 2), F('f', 13, 1), X('d', 8, 5), F('a', 4, 4), F('b', 0, 4)]
    case OR_IMM => [F('A', 26, 1), F('s', 24, 2), F('f', 23, 1), X('d', 18, 5), F('a', 14, 4), F('b', 3, 11),
        F('S', 0, 3)]
    case XOR_REG => [F('s', 14, 2), F('f', 13, 1), X('d', 8, 5), F('a', 4, 4), F('b', 0, 4)]
    case XOR_IMM => [F('A', 26, 1), F('s', 24, 2), F('f', 23, 1), X('d', 18, 5), F('a', 14, 4), F('b', 3, 11),
        F('S', 0, 3)]
    case SHL_REG => [F('s', 14, 2), F('f', 13, 1), X('d', 8, 5), F('a', 4, 4), F('b', 0, 4)]
    case SHL_IMM => [F('s', 17, 2), F('f', 16, 1), X('d', 11, 5), F('a', 7, 4), F('b', 0, 7)]
    case SHR_REG => [F('s', 15, 2), F('A', 14, 1), F('f', 13, 1), X('d', 8, 5), F('a', 4, 4), F('b', 0, 4)]
    case SHR_IMM => [F('s', 18, 2), F('A', 17, 1), F('f', 16, 1), X('d', 11, 5), F('a', 7, 4), F('b', 0, 7)]
    case ROT_REG => [F('s', 14, 2), F('f', 13, 1), X('d', 8, 5), F('a', 4, 4), F('b', 0, 4)]
    case ROT_IMM => [F('s', 17, 2), F('f', 16, 1), X('d', 11, 5), F('a', 7, 4), F('b', 0, 7)]
    case NEG => [F('s', 9, 2), F('f', 8, 1), F('d', 4, 4), F('a', 0, 4)]
    case BSWAP => [F('s', 9, 2), F('f', 8, 1), F('d', 4, 4), F('a', 0, 4)]
    case SOC => [X('c', 15, 4), F('B', 14, 1), F('s', 12, 2), F('d', 8, 4), F('a', 4, 4), F('b', 0, 4)]
    case SOF => [X('c', 6, 4), F('s', 4, 2), F('d', 0, 4)]
    case JMPA => [X('c', 4, 4), F('a', 0, 4)]
    case JMPR_REG => [X('c', 4, 4), F('a', 0, 4)]
    case JMPR_REL => [X('c', 22, 4), F('a', 0, 22)]
    case CJMPA => [X('c', 14, 4), F('s', 12, 2), F('a', 8, 4), F('b', 4, 4), F('C', 0, 4)]
    case CJMPR_REG => [X('c', 14, 4), F('s', 12, 2), F('a', 8, 4), F('b', 4, 4), F('C', 0, 4)]
    case CJMPR_REL => [X('c', 23, 4), F('s', 21, 2), F('b', 17, 4), F('C', 13, 4), F('a', 0, 13)]
    case CALLA => [X('c', 4, 4), F('a', 0, 4)]
    case CALLR_REG => [X('c', 4, 4), F('a', 0, 4)]
    case CALLR_REL => [X('c', 22, 4), F('a', 0, 22)]
    case EXC => [F('a', 0, 16)]
    case LDM => [F('d', 22, 4), F('a', 0, 22)]
    case STM => [F('a', 22, 4), F('d', 0, 22)]
    case _ => []
  }

  predicate FitsAt(fs: seq<Field>, env: Env, k: nat) {
    k < |fs| && fs[k].exact ==> env(fs[k].letter) < Pow2(fs[k].width)
  }

  predicate AllFit(fs: seq<Field>, env: Env) {
    && FitsAt(fs, env, 0) && FitsAt(fs, env, 1) && FitsAt(fs, env, 2) && FitsAt(fs, env, 3)
    && FitsAt(fs, env, 4) && FitsAt(fs, env, 5) && FitsAt(fs, env, 6) && FitsAt(fs, env, 7)
  }

  predicate SameField(d: Field, f: Env, g: Env) {
    if d.exact then f(d.letter) == g(d.letter) else Same(f, g, d.letter, Pow2(d.width))
  }

  /** Two bindings agree on every operand of an arm, up to the width of its field. */
  predicate SameOperands(a: Arm, f: Env, g: Env) {
    forall k :: 0 <= k < |ArmLayout(a)| ==> SameField(ArmLayout(a)[k], f, g)
  }

  predicate AgreeOn(fs: seq<Field>, k: nat, f: Env, g: Env) {
    k < |fs| ==> SameField(fs[k], f, g)
  }

  lemma FieldByField(fs: seq<Field>, f: Env, g: Env)
    requires forall k :: 0 <= k < |fs| ==> SameField(fs[k], f, g)
    ensures AgreeOn(fs, 0, f, g) && AgreeOn(fs, 1, f, g) && AgreeOn(fs, 2, f, g) && AgreeOn(fs, 3, f, g)
    ensures AgreeOn(fs, 4, f, g) && AgreeOn(fs, 5, f, g) && AgreeOn(fs, 6, f, g) && AgreeOn(fs, 7, f, g)
  {
  }

  lemma SameEverywhere(a: Arm, f: Env, g: Env)
    requires forall c: char :: IsVariable(c) ==> f(c) == g(c)
    ensures SameOperands(a, f, g)
  {
    forall k | 0 <= k < |ArmLayout(a)| ensures SameField(ArmLayout(a)[k], f, g) {
      AllLaidOut(a);
      EachLaid(ArmTemplate(a), ArmLayout(a), k);
      SameLetter(ArmLayout(a)[k], f, g);
    }
  }

  lemma SameLetter(d: Field, f: Env, g: Env)
    requires f(d.letter) == g(d.letter)
    ensures SameField(d, f, g)
  {
  }

  lemma MemoryAgrees(a: Arm, f: Env, g: Env)
    requires IsMemory(a) && SameOperands(a, f, g)
    ensures Build(a, f) == Build(a, g)
  {
    OperandModuli();
    FieldByField(ArmLayout(a), f, g);
  }

  lemma SumAgrees(a: Arm, f: Env, g: Env)
    requires a in {ADD_REG, ADD_IMM, SUB_REG, SUB_IMM} && SameOperands(a, f, g)
    ensures Build(a, f) == Build(a, g)
  {
    OperandModuli();
    FieldByField(ArmLayout(a), f, g);
  }

  lemma ProductAgrees(a: Arm, f: Env, g: Env)
    requires a in {MUL, DIV} && SameOperands(a, f, g)
    ensures Build(a, f) == Build(a, g)
  {
    OperandModuli();
    FieldByField(ArmLayout(a), f, g);
  }

  lemma LogicRegAgrees(a: Arm, f: Env, g: Env)
    requires a in {AND_REG, OR_REG, XOR_REG} && SameOperands(a, f, g)
    ensures Build(a, f) == Build(a, g)
  {
    OperandModuli();
    FieldByField(ArmLayout(a), f, g);
  }

  lemma LogicImmAgrees(a: Arm, f: Env, g: Env)
    requires a in {AND_IMM, OR_IMM, XOR_IMM} && SameOperands(a, f, g)
    ensures Build(a, f) == Build(a, g)
  {
    OperandModuli();
    FieldByField(ArmLayout(a), f, g);
  }

  lemma ShiftRegAgrees(a: Arm, f: Env, g: Env)
    requires a in {SHL_REG, SHR_REG, ROT_REG} && SameOperands(a, f, g)
    ensures Build(a, f) == Build(a, g)
  {
    OperandModuli();
    FieldByField(ArmLayout(a), f, g);
  }

  lemma ShiftImmAgrees(a: Arm, f: Env, g: Env)
    requires a in {SHL_IMM, SHR_IMM, ROT_IMM} && SameOperands(a, f, g)
    ensures Build(a, f) == Build(a, g)
  {
    OperandModuli();
    FieldByField(ArmLayout(a), f, g);
  }

  lemma SingleAgrees(a: Arm, f: Env, g: Env)
    requires a in {NEG, BSWAP} && SameOperands(a, f, g)
    ensures Build(a, f) == Build(a, g)
  {
    OperandModuli();
    FieldByField(ArmLayout(a), f, g);
  }

  lemma SetAgrees(a: Arm, f: Env, g: Env)
    requires a in {SOC, SOF} && SameOperands(a, f, g)
    ensures Build(a, f) == Build(a, g)
  {
    OperandModuli();
    FieldByField(ArmLayout(a), f, g);
  }

  lemma JumpAgrees(a: Arm, f: Env, g: Env)
    requires !IsMemory(a) && !IsBitwise(a) && a !in {ADD_REG, ADD_IMM, SUB_REG, SUB_IMM, MUL, DIV}
            && SameOperands(a, f, g)
    ensures Build(a, f) == Build(a, g)
  {
    OperandModuli();
    FieldByField(ArmLayout(a), f, g);
  }

  /** An arm's instruction depends on nothing else. */
  lemma BuildAgrees(a: Arm, f: Env, g: Env)
    requires SameOperands(a, f, g)
    ensures Build(a, f) == Build(a, g)
  {
    if IsMemory(a) { MemoryAgrees(a, f, g); }
    else if a in {ADD_REG, ADD_IMM, SUB_REG, SUB_IMM} { SumAgrees(a, f, g); }
    else if a in {MUL, DIV} { ProductAgrees(a, f, g); }
    else if a in {AND_REG, OR_REG, XOR_REG} { LogicRegAgrees(a, f, g); }
    else if a in {AND_IMM, OR_IMM, XOR_IMM} { LogicImmAgrees(a, f, g); }
    else if a in {SHL_REG, SHR_REG, ROT_REG} { ShiftRegAgrees(a, f, g); }
    else if a in {SHL_IMM, SHR_IMM, ROT_IMM} { ShiftImmAgrees(a, f, g); }
    else if a in {NEG, BSWAP} { SingleAgrees(a, f, g); }
    else if a in {SOC, SOF} { SetAgrees(a, f, g); }
    else { JumpAgrees(a, f, g); }
  }

  /** Field k is a letter and stands in the template where the table says. */
  predicate LaidAt(t: string, fs: seq<Field>, k: nat) {
    k < |fs| ==> IsVariable(fs[k].letter) && Has(t, fs[k].letter, fs[k].lo, fs[k].width)
  }

  predicate FirstLaid(t: string, fs: seq<Field>) {
    LaidAt(t, fs, 0) && LaidAt(t, fs, 1) && LaidAt(t, fs, 2) && LaidAt(t, fs, 3)
  }

  predicate LastLaid(t: string, fs: seq<Field>) {
    LaidAt(t, fs, 4) && LaidAt(t, fs, 5) && LaidAt(t, fs, 6) && LaidAt(t, fs, 7)
  }

  /** So do all of them; no arm has more than eight. */
  predicate LaidOut(a: Arm) {
    FirstLaid(ArmTemplate(a), ArmLayout(a)) && LastLaid(ArmTemplate(a), ArmLayout(a))
  }

  lemma EachLaid(t: string, fs: seq<Field>, k: nat)
    requires k < |fs| <= 8 && FirstLaid(t, fs) && LastLaid(t, fs)
    ensures LaidAt(t, fs, k)
  {
  }

  lemma StackLaidOut(a: Arm)
    requires a == PUSHS || a == POPS || a == PUSHP || a == POPP
    ensures LaidOut(a)
  {
    TemplateLength(a);
  }

  lemma LoadLaidOut(a: Arm)
    requires a == LDS || a == STS || a == COPY
    ensures LaidOut(a)
  {
    TemplateLength(a);
  }

  lemma LoadPairLaidOut(a: Arm)
    requires a == LDP || a == STP
    ensures LaidOut(a)
  {
    TemplateLength(a);
  }

  lemma LdiLaidOut(a: Arm)
    requires a == LDI
    ensures LaidOut(a)
  {
    TemplateLength(a);
  }

  lemma LdrLaidOut(a: Arm)
    requires a == LDR
    ensures LaidOut(a)
  {
    TemplateLength(a);
  }

  lemma AddRegLaidOut(a: Arm)
    requires a == ADD_REG
    ensures LaidOut(a)
  {
    TemplateLength(a);
  }

  lemma SubRegLaidOut(a: Arm)
    requires a == SUB_REG
    ensures LaidOut(a)
  {
    TemplateLength(a);
  }

  lemma AddImmFirst(a: Arm)
    requires a == ADD_IMM
    ensures FirstLaid(ArmTemplate(a), ArmLayout(a))
  {
    TemplateLength(a);
  }

  lemma AddImmLast(a: Arm)
    requires a == ADD_IMM
    ensures LastLaid(ArmTemplate(a), ArmLayout(a))
  {
    TemplateLength(a);
  }

  lemma SubImmFirst(a: Arm)
    requires a == SUB_IMM
    ensures FirstLaid(ArmTemplate(a), ArmLayout(a))
  {
    TemplateLength(a);
  }

  lemma SubImmLast(a: Arm)
    requires a == SUB_IMM
    ensures LastLaid(ArmTemplate(a), ArmLayout(a))
  {
    TemplateLength(a);
  }

  lemma MulLaidOut(a: Arm)
    requires a == MUL
    ensures LaidOut(a)
  {
    TemplateLength(a);
  }

  lemma DivLaidOut(a: Arm)
    requires a == DIV
    ensures LaidOut(a)
  {
    TemplateLength(a);
  }

  lemma AndOrRegLaidOut(a: Arm)
    requires a == AND_REG || a == OR_REG
    ensures LaidOut(a)
  {
    TemplateLength(a);
  }

  lemma XorRegLaidOut(a: Arm)
    requires a == XOR_REG
    ensures LaidOut(a)
  {
    TemplateLength(a);
  }

  lemma ShlRotRegLaidOut(a: Arm)
    requires a == SHL_REG || a == ROT_REG
    ensures LaidOut(a)
  {
    TemplateLength(a);
  }

  lemma ShrRegLaidOut(a: Arm)
    requires a == SHR_REG
    ensures LaidOut(a)
  {
    TemplateLength(a);
  }

  lemma AndImmFirst(a: Arm)
    requires a == AND_IMM
    ensures FirstLaid(ArmTemplate(a), ArmLayout(a))
  {
    TemplateLength(a);
  }

  lemma AndImmLast(a: Arm)
    requires a == AND_IMM
    ensures LastLaid(ArmTemplate(a), ArmLayout(a))
  {
    TemplateLength(a);
  }

  lemma OrImmFirst(a: Arm)
    requires a == OR_IMM
    ensures FirstLaid(ArmTemplate(a), ArmLayout(a))
  {
    TemplateLength(a);
  }

  lemma OrImmLast(a: Arm)
    requires a == OR_IMM
    ensures LastLaid(ArmTemplate(a), ArmLayout(a))
  {
    TemplateLength(a);
  }

  lemma XorImmFirst(a: Arm)
    requires a == XOR_IMM
    ensures FirstLaid(ArmTemplate(a), ArmLayout(a))
  {
    TemplateLength(a);
  }

  lemma XorImmLast(a: Arm)
    requires a == XOR_IMM
    ensures LastLaid(ArmTemplate(a), ArmLayout(a))
  {
    TemplateLength(a);
  }

  lemma ShlImmLaidOut(a: Arm)
    requires a == SHL_IMM
    ensures LaidOut(a)
  {
    TemplateLength(a);
  }

  lemma RotImmLaidOut(a: Arm)
    requires a == ROT_IMM
    ensures LaidOut(a)
  {
    TemplateLength(a);
  }

  lemma ShrImmLaidOut(a: Arm)
    requires a == SHR_IMM
    ensures LaidOut(a)
  {
    TemplateLength(a);
  }

  lemma SingleLaidOut(a: Arm)
    requires a == NEG || a == BSWAP
    ensures LaidOut(a)
  {
    TemplateLength(a);
  }

  lemma SofLaidOut(a: Arm)
    requires a == SOF
    ensures LaidOut(a)
  {
    TemplateLength(a);
  }

  lemma SocLaidOut(a: Arm)
    requires a == SOC
    ensures LaidOut(a)
  {
    TemplateLength(a);
  }

  lemma JumpLaidOut(a: Arm)
    requires a == JMPA || a == JMPR_REG
    ensures LaidOut(a)
  {
    TemplateLength(a);
  }

  lemma CallLaidOut(a: Arm)
    requires a == CALLA || a == CALLR_REG
    ensures LaidOut(a)
  {
    TemplateLength(a);
  }

  lemma FarJumpLaidOut(a: Arm)
    requires a == JMPR_REL || a == CALLR_REL
    ensures LaidOut(a)
  {
    TemplateLength(a);
  }

  lemma CjmpaLaidOut(a: Arm)
    requires a == CJMPA
    ensures LaidOut(a)
  {
    TemplateLength(a);
  }

  lemma CjmprRegLaidOut(a: Arm)
    requires a == CJMPR_REG
    ensures LaidOut(a)
  {
    TemplateLength(a);
  }

  lemma CjmprRelLaidOut(a: Arm)
    requires a == CJMPR_REL
    ensures LaidOut(a)
  {
    TemplateLength(a);
  }

  lemma ExcLaidOut(a: Arm)
    requires a == EXC
    ensures LaidOut(a)
  {
    TemplateLength(a);
  }

  lemma LdmLaidOut(a: Arm)
    requires a == LDM
    ensures LaidOut(a)
  {
    TemplateLength(a);
  }

  lemma StmLaidOut(a: Arm)
    requires a == STM
    ensures LaidOut(a)
  {
    TemplateLength(a);
  }

  lemma AllLaidOut(a: Arm)
    ensures LaidOut(a)
  {
    match a
    case PUSHS | POPS | PUSHP | POPP => StackLaidOut(a);
    case LDS | STS | COPY => LoadLaidOut(a);
    case LDP | STP => LoadPairLaidOut(a);
    case LDI => LdiLaidOut(a);
    case LDR => LdrLaidOut(a);
    case ADD_REG => AddRegLaidOut(a);
    case SUB_REG => SubRegLaidOut(a);
    case ADD_IMM =>
      AddImmFirst(a);
      AddImmLast(a);
    case SUB_IMM =>
      SubImmFirst(a);
      SubImmLast(a);
    case MUL => MulLaidOut(a);
    case DIV => DivLaidOut(a);
    case AND_REG | OR_REG => AndOrRegLaidOut(a);
    case XOR_REG => XorRegLaidOut(a);
    case SHL_REG | ROT_REG => ShlRotRegLaidOut(a);
    case SHR_REG => ShrRegLaidOut(a);
    case AND_IMM =>
      AndImmFirst(a);
      AndImmLast(a);
    case OR_IMM =>
      OrImmFirst(a);
      OrImmLast(a);
    case XOR_IMM =>
      XorImmFirst(a);
      XorImmLast(a);
    case SHL_IMM => ShlImmLaidOut(a);
    case ROT_IMM => RotImmLaidOut(a);
    case SHR_IMM => ShrImmLaidOut(a);
    case NEG | BSWAP => SingleLaidOut(a);
    case SOF => SofLaidOut(a);
    case SOC => SocLaidOut(a);
    case JMPA | JMPR_REG => JumpLaidOut(a);
    case CALLA | CALLR_REG => CallLaidOut(a);
    case JMPR_REL | CALLR_REL => FarJumpLaidOut(a);
    case CJMPA => CjmpaLaidOut(a);
    case CJMPR_REG => CjmprRegLaidOut(a);
    case CJMPR_REL => CjmprRelLaidOut(a);
    case EXC => ExcLaidOut(a);
    case LDM => LdmLaidOut(a);
    case STM => StmLaidOut(a);
    case _ =>
  }

  lemma EachFits(fs: seq<Field>, env: Env, k: nat)
    requires k < |fs| <= 8 && AllFit(fs, env)
    ensures FitsAt(fs, env, k)
  {
  }

  lemma StackFits(a: Arm, env: Env)
    requires Encodable(a, env) && a in {PUSHS, PUSHP, POPS, POPP}
    ensures AllFit(ArmLayout(a), env)
  {
    OperandModuli();
  }

  lemma SumFits(a: Arm, env: Env)
    requires Encodable(a, env) && a in {ADD_REG, ADD_IMM, SUB_REG, SUB_IMM}
    ensures AllFit(ArmLayout(a), env)
  {
    OperandModuli();
  }

  lemma LogicRegFits(a: Arm, env: Env)
    requires Encodable(a, env) && a in {AND_REG, OR_REG, XOR_REG}
    ensures AllFit(ArmLayout(a), env)
  {
    OperandModuli();
  }

  lemma LogicImmFits(a: Arm, env: Env)
    requires Encodable(a, env) && a in {AND_IMM, OR_IMM, XOR_IMM}
    ensures AllFit(ArmLayout(a), env)
  {
    OperandModuli();
  }

  lemma ShiftRegFits(a: Arm, env: Env)
    requires Encodable(a, env) && a in {SHL_REG, SHR_REG, ROT_REG}
    ensures AllFit(ArmLayout(a), env)
  {
    OperandModuli();
  }

  lemma ShiftImmFits(a: Arm, env: Env)
    requires Encodable(a, env) && a in {SHL_IMM, SHR_IMM, ROT_IMM}
    ensures AllFit(ArmLayout(a), env)
  {
    OperandModuli();
  }

  lemma SetFits(a: Arm, env: Env)
    requires Encodable(a, env) && a in {SOC, SOF}
    ensures AllFit(ArmLayout(a), env)
  {
    OperandModuli();
  }

  lemma JumpFits(a: Arm, env: Env)
    requires Encodable(a, env) && a in {JMPA, JMPR_REG, JMPR_REL}
    ensures AllFit(ArmLayout(a), env)
  {
    OperandModuli();
  }

  lemma BranchFits(a: Arm, env: Env)
    requires Encodable(a, env) && a in {CJMPA, CJMPR_REG, CJMPR_REL}
    ensures AllFit(ArmLayout(a), env)
  {
    OperandModuli();
  }

  lemma CallFits(a: Arm, env: Env)
    requires Encodable(a, env) && a in {CALLA, CALLR_REG, CALLR_REL}
    ensures AllFit(ArmLayout(a), env)
  {
    OperandModuli();
  }

  lemma NothingExact(a: Arm, env: Env)
    requires forall k :: 0 <= k < |ArmLayout(a)| ==> !ArmLayout(a)[k].exact
    ensures AllFit(ArmLayout(a), env)
  {
  }

  /** What is bound to an exact letter fits its field. */
  lemma ExactFits(a: Arm, env: Env)
    requires Encodable(a, env)
    ensures AllFit(ArmLayout(a), env)
  {
    match a
    case PUSHS | PUSHP | POPS | POPP => StackFits(a, env);
    case ADD_REG | ADD_IMM | SUB_REG | SUB_IMM => SumFits(a, env);
    case AND_REG | OR_REG | XOR_REG => LogicRegFits(a, env);
    case AND_IMM | OR_IMM | XOR_IMM => LogicImmFits(a, env);
    case SHL_REG | SHR_REG | ROT_REG => ShiftRegFits(a, env);
    case SHL_IMM | SHR_IMM | ROT_IMM => ShiftImmFits(a, env);
    case SOC | SOF => SetFits(a, env);
    case JMPA | JMPR_REG | JMPR_REL => JumpFits(a, env);
    case CJMPA | CJMPR_REG | CJMPR_REL => BranchFits(a, env);
    case CALLA | CALLR_REG | CALLR_REL => CallFits(a, env);
    case _ => NothingExact(a, env);
  }

  /** Every operand bound by the assembler, in any arm, is the operand the emulator sees. */
  lemma OperandsKept(a: Arm, env: Env)
    requires Encodable(a, env)
    ensures SameOperands(a, ArmFields(a, EncodeArm(a, env)), env)
  {
    AllLaidOut(a);
    ExactFits(a, env);
    forall k | 0 <= k < |ArmLayout(a)| ensures SameField(ArmLayout(a)[k], ArmFields(a, EncodeArm(a, env)), env) {
      EachLaid(ArmTemplate(a), ArmLayout(a), k);
      EachFits(ArmLayout(a), env, k);
      KeepsField(a, env, ArmLayout(a)[k]);
    }
  }

  lemma KeepsField(a: Arm, env: Env, d: Field)
    requires IsVariable(d.letter) && Has(ArmTemplate(a), d.letter, d.lo, d.width)
    requires d.exact ==> env(d.letter) < Pow2(d.width)
    ensures SameField(d, ArmFields(a, EncodeArm(a, env)), env)
  {
    if d.exact {
      FieldKept(a, env, d.letter, d.lo, d.width);
    } else {
      FieldReduced(a, env, d.letter, d.lo, d.width, Pow2(d.width));
    }
  }

  /** The emulator decodes an encoded arm to the instruction its operands describe. */
  lemma DecodeEncoded(a: Arm, env: Env)
    requires Encodable(a, env)
    ensures Decode(EncodeArm(a, env)) == Build(a, env)
  {
    DecodeArm(a, env);
    OperandsKept(a, env);
    BuildAgrees(a, ArmFields(a, EncodeArm(a, env)), env);
  }
}
