/**
 One source instruction: its operands are evaluated and truncated, its size and condition
 settled, and the word scattered; every word the table can emit decodes to the instruction
 that was written.
 */
module Operands {
  import opened Bits
  import opened Isa
  import opened Expressions
  import opened Table
  import opened Machine
  import T = Templates
  import D = Decoder
  import E = Encoder

  /** A register operand, perhaps with a size suffix. */
  datatype SReg = SReg(id: Reg, size: Option<Size>)

  datatype Arg = RegArg(r: SReg) | NullArg | ImmArg(e: Expr)

  /** An instruction after parsing. */
  datatype Source = Source(row: Row, cond: Option<Condition>, size: Option<Size>, args: seq<Arg>)

  datatype Argument = Register(r: SReg) | Immediate(v: u64)

  /** An evaluated operand; None is a null register. */
  type Slot = Option<Argument>

  /** The value of one operand for a parameter; `own` is the address of the instruction. */
  function Consume(p: Param, arg: Option<Arg>, names: Names, own: u64): Result<Slot> {
    match arg
    case None =>
      if p.optional then Ok(Some(Immediate(0))) else if p.ty.PNull? then Ok(None) else Err(BadOperand)
    case Some(NullArg) => if p.ty.PNull? then Ok(None) else Err(BadOperand)
    case Some(RegArg(r)) =>
      if p.ty.PReg? || p.ty.PNull? || p.ty.PRel? || p.ty.PRegImm? then Ok(Some(Register(r))) else Err(BadOperand)
    case Some(ImmArg(e)) =>
      var v :- Eval(e, names, own);
      var x :- ToField(p.ty, v, own);
      Ok(Some(Immediate(x)))
  }

  /** An immediate as the field of a parameter holds it. */
  function ToField(ty: ParamType, v: u64, own: u64): Result<u64> {
    match ty
    case PBool => Ok(v)
    case PImm(w) => Ok(Truncate(v, w, false))
    case PRegImm(w) => Ok(Truncate(v, w, false))
    case PRel(w) => var offset :- InstructionOffset(v, Wrap(own + 4)); Ok(Truncate(offset, w, true))
    case PByteRel(w) => Ok(Truncate(ByteOffset(v, Wrap(own + 4)), w, true))
    case _ => Err(BadOperand)
  }

  function ConsumeAll(params: seq<Param>, args: seq<Arg>, names: Names, own: u64): Result<seq<Slot>> {
    if params == [] then Ok([])
    else
      var first :- Consume(params[0], if args == [] then None else Some(args[0]), names, own);
      var rest :- ConsumeAll(params[1..], if args == [] then [] else args[1..], names, own);
      Ok([first] + rest)
  }

  // ------------------------------------------------------- operation size

  function SizeOf(slot: Slot): Option<Size> {
    match slot
    case Some(Register(r)) => r.size
    case _ => None
  }

  /** Some register operand, or the operation itself, is written with this size. */
  predicate Declares(slots: seq<Slot>, operation: Option<Size>, size: Size) {
    operation == Some(size) || exists i :: 0 <= i < |slots| && SizeOf(slots[i]) == Some(size)
  }

  /** The one size everything agrees on, Word if nothing is said, an error on a clash. */
  ghost predicate IsCommonSize(slots: seq<Slot>, operation: Option<Size>, r: Result<Size>) {
    match r
    case Ok(size) => forall s :: Declares(slots, operation, s) ==> s == size
    case Err(_) => exists s, t :: s != t && Declares(slots, operation, s) && Declares(slots, operation, t)
  }

  function CommonSize(slots: seq<Slot>, operation: Option<Size>): Result<Size> {
    if slots == [] then Ok(if operation.Some? then operation.value else Word)
    else match (SizeOf(slots[0]), operation)
      case (None, _) => CommonSize(slots[1..], operation)
      case (Some(s), None) => CommonSize(slots[1..], Some(s))
      case (Some(s), Some(t)) => if s != t then Err(SizeClash) else CommonSize(slots[1..], operation)
  }

  lemma {:induction false} CommonSizeAgrees(slots: seq<Slot>, operation: Option<Size>)
    ensures IsCommonSize(slots, operation, CommonSize(slots, operation))
    ensures CommonSize(slots, operation).Ok? ==>
              Declares(slots, operation, CommonSize(slots, operation).value)
              || (CommonSize(slots, operation).value == Word && forall s :: !Declares(slots, operation, s))
  {
    if slots != [] {
      var own := SizeOf(slots[0]);
      var settled := if operation.None? then own else operation;
      forall s ensures Declares(slots, operation, s) <==> own == Some(s) || Declares(slots[1..], operation, s) {
        DeclaresStep(slots, operation, s);
      }
      assert own.None? || operation.None? || own == operation ==>
        forall s :: Declares(slots, operation, s) <==> Declares(slots[1..], settled, s);
      if own.Some? && operation.Some? && own != operation {
        assert Declares(slots, operation, own.value) && Declares(slots, operation, operation.value);
      } else {
        CommonSizeAgrees(slots[1..], settled);
      }
    }
  }

  lemma DeclaresStep(slots: seq<Slot>, operation: Option<Size>, s: Size)
    requires slots != []
    ensures Declares(slots, operation, s) <==> SizeOf(slots[0]) == Some(s) || Declares(slots[1..], operation, s)
  {
    if Declares(slots[1..], operation, s) && operation != Some(s) {
      var i :| 0 <= i < |slots[1..]| && SizeOf(slots[1..][i]) == Some(s);
      assert SizeOf(slots[i + 1]) == Some(s);
    }
    if Declares(slots, operation, s) && operation != Some(s) {
      var i :| 0 <= i < |slots| && SizeOf(slots[i]) == Some(s);
      if i > 0 { assert SizeOf(slots[1..][i - 1]) == Some(s); }
    }
  }

  /** The source's loop over the operands. */
  method CommonRegisterSize(slots: seq<Slot>, declared: Option<Size>) returns (r: Result<Size>)
    ensures r == CommonSize(slots, declared)
    ensures IsCommonSize(slots, declared, r)
  {
    CommonSizeAgrees(slots, declared);
    var operation := declared;
    for i := 0 to |slots|
      invariant CommonSize(slots[i..], operation) == CommonSize(slots, declared)
    {
      match slots[i]
      case Some(Register(reg)) =>
        if reg.size.Some? {
          if operation.Some? {
            if operation != reg.size { return Err(SizeClash); }
          } else {
            operation := reg.size;
          }
        }
      case _ =>
      assert slots[i..][1..] == slots[i + 1..];
    }
    r := Ok(if operation.Some? then operation.value else Word);
  }

  // --------------------------------------------------------- the encoding

  /** Everything an instruction's templates refer to. */
  datatype Bound = Bound(slots: seq<Slot>, s: Size, t: Size, cond: Option<Condition>)

  function SizeCode(s: Size): nat {
    match s
    case Byte => 0
    case DoubleByte => 1
    case QuadByte => 2
    case Word => 3
  }

  function CondCode(c: Condition): nat {
    match c
    case C => 0
    case NC => 1
    case Z => 2
    case NZ => 3
    case O => 4
    case NO => 5
    case S => 6
    case NS => 7
    case L => 8
    case NL => 9
  }

  function NullCondCode(c: Option<Condition>): nat {
    match c
    case Some(x) => CondCode(x)
    case None => 15
  }

  /** The bits of an operand: a register's number, 31 for none, or the immediate. */
  function SlotCode(slot: Slot): u64 {
    match slot
    case None => 31
    case Some(Register(r)) => r.id
    case Some(Immediate(v)) => v
  }

  /** The value of the parameter with this letter. */
  function Lookup(params: seq<Param>, slots: seq<Slot>, letter: char): Option<u64> {
    if params == [] || slots == [] then None
    else if params[0].letter == letter then Some(SlotCode(slots[0]))
    else Lookup(params[1..], slots[1..], letter)
  }

  /** What a letter of a template stands for. */
  function Letter(params: seq<Param>, b: Bound, letter: char): u64 {
    match Lookup(params, b.slots, letter)
    case Some(v) => v
    case None =>
      if letter == 's' then SizeCode(b.s) else if letter == 't' then SizeCode(b.t)
      else if letter == 'c' then NullCondCode(b.cond) else 0
  }

  function Bindings(params: seq<Param>, b: Bound): T.Env {
    letter => Letter(params, b, letter)
  }

  predicate Distinct(params: seq<Param>) {
    forall i, j :: 0 <= i < j < |params| ==> params[i].letter != params[j].letter
  }

  lemma {:induction false} LookupAt(params: seq<Param>, slots: seq<Slot>, k: nat)
    requires Distinct(params) && |slots| == |params| && k < |params|
    ensures Lookup(params, slots, params[k].letter) == Some(SlotCode(slots[k]))
  {
    if k > 0 { LookupAt(params[1..], slots[1..], k - 1); }
  }

  lemma {:induction false} LookupMissing(params: seq<Param>, slots: seq<Slot>, letter: char)
    requires |slots| == |params| && forall i :: 0 <= i < |params| ==> params[i].letter != letter
    ensures Lookup(params, slots, letter) == None
  {
    if params != [] { LookupMissing(params[1..], slots[1..], letter); }
  }

  /** Every parameter is seen under its letter, and s, t and c under theirs. */
  lemma BoundLetters(params: seq<Param>, b: Bound)
    requires Distinct(params) && |b.slots| == |params|
    ensures forall k :: 0 <= k < |params| ==> Letter(params, b, params[k].letter) == SlotCode(b.slots[k])
    ensures (forall k :: 0 <= k < |params| ==> params[k].letter != 's') ==> Letter(params, b, 's') == SizeCode(b.s)
    ensures (forall k :: 0 <= k < |params| ==> params[k].letter != 't') ==> Letter(params, b, 't') == SizeCode(b.t)
    ensures (forall k :: 0 <= k < |params| ==> params[k].letter != 'c')
            ==> Letter(params, b, 'c') == NullCondCode(b.cond)
  {
    forall k | 0 <= k < |params| ensures Letter(params, b, params[k].letter) == SlotCode(b.slots[k]) {
      LookupAt(params, b.slots, k);
    }
    forall ch | ch in "stc" && forall k :: 0 <= k < |params| ==> params[k].letter != ch
      ensures Lookup(params, b.slots, ch) == None
    {
      LookupMissing(params, b.slots, ch);
    }
    assert "stc"[0] == 's' && "stc"[1] == 't' && "stc"[2] == 'c';
  }

  /** The variable operand of a two-template row is an immediate. */
  predicate TakesImmediate(params: seq<Param>, slots: seq<Slot>)
    requires |slots| == |params|
  {
    exists i :: 0 <= i < |params| && (params[i].ty.PRel? || params[i].ty.PRegImm?)
                && slots[i].Some? && slots[i].value.Immediate?
  }

  /** An evaluated operand is of the kind its parameter allows. */
  predicate Suits(p: Param, slot: Slot) {
    match p.ty
    case PReg => slot.Some? && slot.value.Register?
    case PNull => slot.None? || slot.value.Register?
    case PRel(_) => slot.Some?
    case PRegImm(_) => slot.Some?
    case _ => slot.Some? && slot.value.Immediate?
  }

  predicate Fitting(params: seq<Param>, b: Bound) {
    |b.slots| == |params| && forall i :: 0 <= i < |params| ==> Suits(params[i], b.slots[i])
  }

  function EncodeRow(r: Row, b: Bound): u32
    requires |b.slots| == |Params(r)|
  {
    var t := Template(r, TakesImmediate(Params(r), b.slots));
    TemplateSize(r, TakesImmediate(Params(r), b.slots));
    T.Below32(T.Scatter(t, Bindings(Params(r), b), |t|), |t|);
    T.Scatter(t, Bindings(Params(r), b), |t|)
  }
}
