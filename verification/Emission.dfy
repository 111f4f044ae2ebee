/** Whole source instructions: from operands to the word in the output file and back. */
module Emission {
  import opened Bits
  import opened Isa
  import opened Expressions
  import opened Table
  import opened Operands
  import opened Meaning
  import T = Templates
  import D = Decoder
  import E = Encoder

  // ------------------------------------------------- every row decodes back

  lemma RowEncodesArm(r: Row, b: Bound)
    requires !IsPseudo(r) && |b.slots| == |Params(r)|
    ensures EncodeRow(r, b) == E.EncodeArm(Target(r, TakesImmediate(Params(r), b.slots)), Bindings(Params(r), b))
  {
    TablesAgree(r, TakesImmediate(Params(r), b.slots));
  }

  lemma ArmDecodes(a: D.Arm, f: T.Env, i: Instr)
    requires E.Encodable(a, f) && D.Build(a, f) == D.Decoded(i)
    ensures D.Decode(E.EncodeArm(a, f)) == D.Decoded(i)
  {
    E.DecodeEncoded(a, f);
  }

  lemma RealRowBuilds(r: Row, b: Bound)
    requires !IsPseudo(r) && Fitting(Params(r), b) && Conditioned(r, b)
    ensures Says(r, b, TakesImmediate(Params(r), b.slots), Bindings(Params(r), b))
  {
    BindingsSeen(r, b);
    TemplateChosen(r, b);
    RowSays(r, b, TakesImmediate(Params(r), b.slots), Bindings(Params(r), b));
  }

  lemma RealRowDecodes(r: Row, b: Bound)
    requires !IsPseudo(r) && Fitting(Params(r), b) && Conditioned(r, b)
    ensures D.Decode(EncodeRow(r, b)) == D.Decoded(Meant(r, b))
  {
    RealRowBuilds(r, b);
    RowEncodesArm(r, b);
    ArmDecodes(Target(r, TakesImmediate(Params(r), b.slots)), Bindings(Params(r), b), Meant(r, b));
  }

  // --------------------------------------------------- pseudo-instructions

  /** t has a destination field of five bits at lo and the flag-setting bit above it; u is t
      with these six bits set. */
  predicate Comparison(u: string, t: string, lo: nat) {
    && |u| == |t| == 32 && lo + 6 <= 32
    && T.FieldAt(t, 'd', lo, 5) && T.FieldAt(t, 'f', lo + 5, 1)
    && (forall j :: 0 <= j < 32 ==> T.At(u, j) == if lo <= j < lo + 6 then '1' else T.At(t, j))
  }

  /** The bindings of a comparison, with no destination and flags set. */
  function Comparing(f: T.Env): T.Env {
    letter => if letter == 'd' then 31 else if letter == 'f' then 1 else f(letter)
  }

  lemma {:induction false} OccKept(u: string, t: string, lo: nat, c: char, i: nat)
    requires Comparison(u, t, lo) && i <= 32 && c != 'd' && c != 'f' && c != '1'
    ensures T.Occ(u, c, i) == T.Occ(t, c, i)
  {
    if i > 0 { OccKept(u, t, lo, c, i - 1); }
  }

  lemma ComparisonBit(u: string, t: string, lo: nat, f: T.Env, j: nat)
    requires Comparison(u, t, lo) && j < 32
    ensures T.WordBit(u, f, j) == T.WordBit(t, Comparing(f), j)
  {
    var c := T.At(t, j);
    if c == 'd' {
      T.FieldWidth(t, c, lo, 5, j);
      assert Pow2(5) == 32;
      MaskBit(5, j - lo);
    } else if c == 'f' {
      T.FieldWidth(t, c, lo + 5, 1, j);
      assert Pow2(1) == 2;
      MaskBit(1, 0);
    } else if c != '0' && c != '1' {
      OccKept(u, t, lo, c, j);
    }
  }

  lemma ComparisonWord(u: string, t: string, lo: nat, f: T.Env)
    requires Comparison(u, t, lo)
    ensures T.Scatter(u, f, 32) == T.Scatter(t, Comparing(f), 32)
  {
    forall j | 0 <= j < 32 ensures T.WordBit(u, f, j) == T.WordBit(t, Comparing(f), j) {
      ComparisonBit(u, t, lo, f, j);
    }
    T.SpecialisedWord(u, f, t, Comparing(f), 32);
  }

  lemma SubRegText()
    ensures D.ArmTemplate(D.SUB_REG) == "101000" + "000000000ssBfdddddaaaabbbb"
    ensures Template(RCmpReg, false) == "101000" + "000000000ssB111111aaaabbbb"
  {
  }

  lemma SubImmText()
    ensures D.ArmTemplate(D.SUB_IMM) == "1001ss" + "BfdddddaaaaASSSbbbbbbbbbbb"
    ensures Template(RCmpImm, false) == "1001ss" + "B111111aaaaASSSbbbbbbbbbbb"
  {
  }

  lemma RegShape(u: string, t: string)
    requires u == "101000" + "000000000ssB111111aaaabbbb" && t == "101000" + "000000000ssBfdddddaaaabbbb"
    ensures Comparison(u, t, 8)
  {
  }

  lemma ImmShape(u: string, t: string)
    requires u == "1001ss" + "B111111aaaaASSSbbbbbbbbbbb" && t == "1001ss" + "BfdddddaaaaASSSbbbbbbbbbbb"
    ensures Comparison(u, t, 19)
  {
  }

  lemma CmpRegEncodes(b: Bound)
    requires |b.slots| == |Params(RCmpReg)|
    ensures EncodeRow(RCmpReg, b) == E.EncodeArm(D.SUB_REG, Comparing(Bindings(Params(RCmpReg), b)))
  {
    SubRegText();
    RegShape(Template(RCmpReg, false), D.ArmTemplate(D.SUB_REG));
    ComparisonWord(Template(RCmpReg, false), D.ArmTemplate(D.SUB_REG), 8, Bindings(Params(RCmpReg), b));
    OneTemplate(RCmpReg, b);
  }

  lemma CmpImmEncodes(b: Bound)
    requires |b.slots| == |Params(RCmpImm)|
    ensures EncodeRow(RCmpImm, b) == E.EncodeArm(D.SUB_IMM, Comparing(Bindings(Params(RCmpImm), b)))
  {
    SubImmText();
    ImmShape(Template(RCmpImm, false), D.ArmTemplate(D.SUB_IMM));
    ComparisonWord(Template(RCmpImm, false), D.ArmTemplate(D.SUB_IMM), 19, Bindings(Params(RCmpImm), b));
    OneTemplate(RCmpImm, b);
  }

  lemma OneTemplate(r: Row, b: Bound)
    requires IsPseudo(r) && |b.slots| == |Params(r)|
    ensures !TakesImmediate(Params(r), b.slots)
  {
  }

  lemma ComparingSeen(r: Row, b: Bound, f: T.Env)
    requires IsPseudo(r) && Seen(r, b, f)
    ensures Seen(r, b, Comparing(f)) && Comparing(f)('d') == 31 && Comparing(f)('f') == 1
  {
    var ps := Params(r);
    forall k | 0 <= k < |ps| ensures Sees(Comparing(f), ps[k], b, k) {
      assert Sees(f, ps[k], b, k) && ps[k].letter != 'd' && ps[k].letter != 'f';
    }
  }

  lemma CmpRegDecodes(b: Bound, f: T.Env)
    requires Fitting(Params(RCmpReg), b) && f == Comparing(Bindings(Params(RCmpReg), b))
    requires Seen(RCmpReg, b, f) && f('d') == 31 && f('f') == 1
    ensures D.Decode(EncodeRow(RCmpReg, b)) == D.Decoded(Meant(RCmpReg, b))
  {
    CmpRegEncodes(b);
    CmpRegSays(b, f);
    ArmDecodes(D.SUB_REG, f, Meant(RCmpReg, b));
  }

  lemma CmpImmDecodes(b: Bound, f: T.Env)
    requires Fitting(Params(RCmpImm), b) && f == Comparing(Bindings(Params(RCmpImm), b))
    requires Seen(RCmpImm, b, f) && f('d') == 31 && f('f') == 1
    ensures D.Decode(EncodeRow(RCmpImm, b)) == D.Decoded(Meant(RCmpImm, b))
  {
    CmpImmEncodes(b);
    CmpImmSays(b, f);
    ArmDecodes(D.SUB_IMM, f, Meant(RCmpImm, b));
  }

  lemma PseudoDecodes(r: Row, b: Bound)
    requires IsPseudo(r) && Fitting(Params(r), b) && Conditioned(r, b)
    ensures D.Decode(EncodeRow(r, b)) == D.Decoded(Meant(r, b))
  {
    var f := Comparing(Bindings(Params(r), b));
    BindingsSeen(r, b);
    ComparingSeen(r, b, Bindings(Params(r), b));
    if r.RCmpReg? { CmpRegDecodes(b, f); } else { CmpImmDecodes(b, f); }
  }

  /** Every word the table can emit decodes to the instruction it was written for, with a null
      register for 31, no condition for 15, and each immediate as its field holds it; none
      is unmatched or has an invalid field. */
  lemma RowDecodes(r: Row, b: Bound)
    requires Fitting(Params(r), b) && Conditioned(r, b)
    ensures D.Decode(EncodeRow(r, b)) == D.Decoded(Meant(r, b))
  {
    if IsPseudo(r) { PseudoDecodes(r, b); } else { RealRowDecodes(r, b); }
  }

  // --------------------------------------------------- source instructions

  /** The operands, sizes and condition of a source instruction at address `own`. */
  function Resolve(src: Source, names: Names, own: u64): Result<Bound> {
    var slots :- ConsumeAll(Params(src.row), src.args, names, own);
    if ConditionModifier(src.row).Required? && src.cond.None? then Err(BadOperand)
    else if src.row.RMul? && |slots| >= 3 then
      var s :- CommonSize(slots[1..3], None);
      var t :- CommonSize(slots[..1], None);
      Ok(Bound(slots, s, t, src.cond))
    else if SizeModifier(src.row).Optional? then
      var s :- CommonSize(slots, src.size);
      Ok(Bound(slots, s, Word, src.cond))
    else Ok(Bound(slots, Word, Word, src.cond))
  }

  /** Only immediates have defaults. */
  predicate Defaulted(p: Param) {
    p.optional ==> p.ty.PImm? || p.ty.PBool?
  }

  lemma SumDefaults(r: Row)
    requires SumRow(r) || ProductRow(r)
    ensures forall k :: 0 <= k < |Params(r)| ==> Defaulted(Params(r)[k])
  {
  }

  lemma LogicDefaults(r: Row)
    requires LogicRow(r) && !SumRow(r)
    ensures forall k :: 0 <= k < |Params(r)| ==> Defaulted(Params(r)[k])
  {
  }

  lemma OtherDefaults(r: Row)
    requires !SumRow(r) && !ProductRow(r) && !LogicRow(r)
    ensures forall k :: 0 <= k < |Params(r)| ==> Defaulted(Params(r)[k])
  {
  }

  lemma AllDefaulted(r: Row)
    ensures forall k :: 0 <= k < |Params(r)| ==> Defaulted(Params(r)[k])
  {
    if SumRow(r) || ProductRow(r) { SumDefaults(r); } else if LogicRow(r) { LogicDefaults(r); }
        else { OtherDefaults(r); }
  }

  lemma {:induction false} ConsumedSuit(params: seq<Param>, args: seq<Arg>, names: Names, own: u64)
    requires ConsumeAll(params, args, names, own).Ok?
    requires forall k :: 0 <= k < |params| ==> Defaulted(params[k])
    ensures var slots := ConsumeAll(params, args, names, own).value;
            |slots| == |params| && forall k :: 0 <= k < |params| ==> Suits(params[k], slots[k])
  {
    if params != [] {
      var rest := if args == [] then [] else args[1..];
      ConsumedSuit(params[1..], rest, names, own);
      var slots := ConsumeAll(params, args, names, own).value;
      assert slots[1..] == ConsumeAll(params[1..], rest, names, own).value;
      forall k | 0 <= k < |params| ensures Suits(params[k], slots[k]) {
        if k > 0 { assert params[k] == params[1..][k - 1] && slots[k] == slots[1..][k - 1]; }
      }
    }
  }

  lemma ResolveFits(src: Source, names: Names, own: u64)
    requires Resolve(src, names, own).Ok?
    ensures Fitting(Params(src.row), Resolve(src, names, own).value)
    ensures Conditioned(src.row, Resolve(src, names, own).value)
  {
    AllDefaulted(src.row);
    ConsumedSuit(Params(src.row), src.args, names, own);
  }

  /** The word written for a source instruction. */
  function Assemble(src: Source, names: Names, own: u64): Result<u32> {
    var b :- Resolve(src, names, own);
    ResolveFits(src, names, own);
    Ok(EncodeRow(src.row, b))
  }

  /** The emulator understands an assembled instruction as the program meant it. */
  lemma AssembledMeans(src: Source, names: Names, own: u64) returns (b: Bound)
    requires Assemble(src, names, own).Ok?
    ensures Resolve(src, names, own) == Ok(b) && Conditioned(src.row, b)
    ensures D.Decode(Assemble(src, names, own).value) == D.Decoded(Meant(src.row, b))
  {
    b := Resolve(src, names, own).value;
    ResolveFits(src, names, own);
    RowDecodes(src.row, b);
  }

  lemma {:induction false} SlotAt(params: seq<Param>, args: seq<Arg>, names: Names, own: u64, k: nat)
    requires ConsumeAll(params, args, names, own).Ok? && k < |params|
    ensures var slots := ConsumeAll(params, args, names, own).value;
            k < |slots| && Consume(params[k], if k < |args| then Some(args[k]) else None, names, own) == Ok(slots[k])
  {
    if k > 0 {
      var rest := if args == [] then [] else args[1..];
      SlotAt(params[1..], rest, names, own, k - 1);
      assert (if k < |args| then Some(args[k]) else None) == if k - 1 < |rest| then Some(rest[k - 1]) else None;
    }
  }

  /** A field holds a value: a flag whole, other immediates cut to their width; distances are the
      business of module Relative. */
  predicate FieldHolds(ty: ParamType, x: u64, v: u64) {
    match ty
    case PBool => x == v
    case PImm(w) => x == v % Pow2(w)
    case PRegImm(w) => x == v % Pow2(w)
    case _ => ty.PRel? || ty.PByteRel?
  }

  /** An operand as written becomes this slot: a register, a null register, or the value of an
      expression at the instruction's own address; left out it is zero, or a null register. */
  predicate Becomes(p: Param, arg: Option<Arg>, names: Names, own: u64, slot: Slot) {
    match arg
    case Some(RegArg(r)) => slot == Some(Register(r))
    case Some(NullArg) => slot == None
    case Some(ImmArg(e)) =>
      && Eval(e, names, own).Ok? && slot.Some? && slot.value.Immediate?
      && FieldHolds(p.ty, slot.value.v, Eval(e, names, own).value)
    case None => slot == if p.optional then Some(Immediate(0)) else None
  }

  /** Operand k of a source instruction is what is written in place k. */
  lemma OperandWritten(src: Source, names: Names, own: u64, k: nat) returns (b: Bound)
    requires Resolve(src, names, own).Ok? && k < |Params(src.row)|
    ensures Resolve(src, names, own) == Ok(b) && k < |b.slots|
    ensures Becomes(Params(src.row)[k], if k < |src.args| then Some(src.args[k]) else None, names, own, b.slots[k])
  {
    b := Resolve(src, names, own).value;
    SlotAt(Params(src.row), src.args, names, own, k);
    ConsumedBecomes(Params(src.row)[k], if k < |src.args| then Some(src.args[k]) else None, names, own, b.slots[k]);
  }

  lemma ConsumedBecomes(p: Param, arg: Option<Arg>, names: Names, own: u64, slot: Slot)
    requires Consume(p, arg, names, own) == Ok(slot)
    ensures Becomes(p, arg, names, own, slot)
  {
  }

  /** An instruction with a size suffix works at the one size that it and its registers are written
      with, or at Word where none is; two different sizes, or a comparison without its condition, do
      not resolve. */
  lemma SizeSettled(src: Source, names: Names, own: u64, slots: seq<Slot>)
    requires SizeModifier(src.row).Optional? && !src.row.RMul?
            && ConsumeAll(Params(src.row), src.args, names, own) == Ok(slots)
    ensures var r := Resolve(src, names, own);
            && (r.Ok? ==> r.value.slots == slots && r.value.cond == src.cond)
            && (r.Ok? <==> (forall s, t :: Declares(slots, src.size, s) && Declares(slots, src.size, t) ==> s == t)
                           && (ConditionModifier(src.row).Required? ==> src.cond.Some?))
            && (r.Ok? ==> forall s :: Declares(slots, src.size, s) ==> r.value.s == s)
            && (r.Ok? && (forall s :: !Declares(slots, src.size, s)) ==> r.value.s == Word)
  {
    CommonSizeAgrees(slots, src.size);
  }

  // ------------------------------------------------ the two sizes of `mul`

  /** The size a register is written with, Word where none is. */
  function WrittenSize(r: SReg): Size {
    if r.size.Some? then r.size.value else Word
  }

  lemma ThreeRegisters(params: seq<Param>, args: seq<Arg>, names: Names, own: u64, d: SReg, x: SReg, y: SReg)
    requires |params| >= 3 && ConsumeAll(params, args, names, own).Ok?
    requires |args| >= 3 && args[0] == RegArg(d) && args[1] == RegArg(x) && args[2] == RegArg(y)
    ensures var slots := ConsumeAll(params, args, names, own).value;
            |slots| >= 3 && slots[..3] == [Some(Register(d)), Some(Register(x)), Some(Register(y))]
  {
    var more := ConsumeAll(params[1..], args[1..], names, own).value;
    var rest := ConsumeAll(params[1..][1..], args[1..][1..], names, own).value;
    assert args[1..][0] == args[1] && args[1..][1..][0] == args[2];
  }

  lemma SizeOfOne(d: SReg, operation: Option<Size>)
    ensures CommonSize([Some(Register(d))], operation) ==
            if d.size.Some? && operation.Some? && d.size != operation then Err(SizeClash)
            else Ok(if operation.Some? then operation.value else WrittenSize(d))
  {
    assert [Some(Register(d))][1..] == [];
    assert SizeOf([Some(Register(d))][0]) == d.size;
  }

  lemma SizeOfTwo(x: SReg, y: SReg)
    ensures CommonSize([Some(Register(x)), Some(Register(y))], None) ==
            if x.size.Some? && y.size.Some? && x.size != y.size then Err(SizeClash)
            else Ok(WrittenSize(if x.size.Some? then x else y))
  {
    assert [Some(Register(x)), Some(Register(y))][1..] == [Some(Register(y))];
    assert SizeOf([Some(Register(x)), Some(Register(y))][0]) == x.size;
    SizeOfOne(y, x.size);
  }

  lemma SizesOfThree(slots: seq<Slot>, d: SReg, x: SReg, y: SReg)
    requires |slots| >= 3 && slots[..3] == [Some(Register(d)), Some(Register(x)), Some(Register(y))]
    ensures CommonSize(slots[..1], None) == Ok(WrittenSize(d))
    ensures CommonSize(slots[1..3], None) ==
            if x.size.Some? && y.size.Some? && x.size != y.size then Err(SizeClash)
            else Ok(WrittenSize(if x.size.Some? then x else y))
  {
    assert slots[1..3] == slots[..3][1..] == [Some(Register(x)), Some(Register(y))];
    assert slots[..1] == slots[..3][..1] == [Some(Register(d))];
    SizeOfOne(d, None);
    SizeOfTwo(x, y);
  }

  lemma MulResolves(src: Source, names: Names, own: u64, d: SReg, x: SReg, y: SReg) returns (b: Bound)
    requires src.row.RMul? && |src.args| >= 3
    requires src.args[0] == RegArg(d) && src.args[1] == RegArg(x) && src.args[2] == RegArg(y)
    requires Resolve(src, names, own).Ok?
    ensures Resolve(src, names, own) == Ok(b) && |b.slots| >= 3
    ensures b.slots[..3] == [Some(Register(d)), Some(Register(x)), Some(Register(y))]
    ensures b.t == WrittenSize(d) && b.s == WrittenSize(if x.size.Some? then x else y)
    ensures x.size.None? || y.size.None? || x.size == y.size
  {
    var slots := ConsumeAll(Params(src.row), src.args, names, own).value;
    ThreeRegisters(Params(src.row), src.args, names, own, d, x, y);
    SizesOfThree(slots, d, x, y);
    b := Resolve(src, names, own).value;
  }

  /** `mul d, x, y` decodes to the multiplication of x and y into d, with the size d is written with
      for the product and the one x and y are written with for the operands; operands of different
      sizes do not assemble. */
  lemma MulAssembles(src: Source, names: Names, own: u64, d: SReg, x: SReg, y: SReg) returns (signed: bool, f: bool)
    requires src.row.RMul? && |src.args| >= 3
    requires src.args[0] == RegArg(d) && src.args[1] == RegArg(x) && src.args[2] == RegArg(y)
    requires Assemble(src, names, own).Ok?
    ensures x.size.None? || y.size.None? || x.size == y.size
    ensures D.Decode(Assemble(src, names, own).value) ==
            D.Decoded(Mul(WrittenSize(if x.size.Some? then x else y), WrittenSize(d), d.id, x.id, y.id, signed, f))
  {
    var b := AssembledMeans(src, names, own);
    var _ := MulResolves(src, names, own, d, x, y);
    MulMeant(b, d, x, y);
    signed, f := FlagAt(b, 3), FlagAt(b, 4);
  }

  lemma MulMeant(b: Bound, d: SReg, x: SReg, y: SReg)
    requires |b.slots| >= 3 && b.slots[..3] == [Some(Register(d)), Some(Register(x)), Some(Register(y))]
    ensures Meant(RMul, b) == Mul(b.s, b.t, d.id, x.id, y.id, FlagAt(b, 3), FlagAt(b, 4))
  {
    assert b.slots[0] == b.slots[..3][0] && b.slots[1] == b.slots[..3][1] && b.slots[2] == b.slots[..3][2];
  }
}
