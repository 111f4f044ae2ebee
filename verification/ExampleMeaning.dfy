/** Every line of the example program is the instruction listed for its address. */
module ExampleMeaning {
  import opened Bits
  import opened Isa
  import opened Machine
  import opened Expressions
  import opened Table
  import opened Operands
  import opened Meaning
  import opened Emission
  import opened Relative
  import opened Layout
  import opened Statements
  import opened ExampleText
  import opened ExampleLayout
  import Guest

  // ------------------------------------------------------ one source line

  /** At `own` the line stands for i. */
  ghost predicate Means(src: Source, names: Names, own: u64, i: Instr) {
    Resolve(src, names, own).Ok? && Conditioned(src.row, Resolve(src, names, own).value)
    && Meant(src.row, Resolve(src, names, own).value) == i
  }

  lemma {:induction false} Consumed(params: seq<Param>, args: seq<Arg>, names: Names, own: u64, slots: seq<Slot>)
    requires |slots| == |params| && |args| <= |params|
    requires forall k :: 0 <= k < |params| ==>
               Consume(params[k], if k < |args| then Some(args[k]) else None, names, own) == Ok(slots[k])
    ensures ConsumeAll(params, args, names, own) == Ok(slots)
  {
    if params != [] {
      assert Consume(params[0], if args == [] then None else Some(args[0]), names, own) == Ok(slots[0]);
      forall k | 0 <= k < |params[1..]|
        ensures Consume(params[1..][k], if k < |args| - 1 then Some(args[1..][k]) else None, names, own)
                == Ok(slots[1..][k])
      {
        assert Consume(params[k + 1], if k + 1 < |args| then Some(args[k + 1]) else None, names, own)
            == Ok(slots[k + 1]);
      }
      Consumed(params[1..], if args == [] then [] else args[1..], names, own, slots[1..]);
      assert slots == [slots[0]] + slots[1..];
    }
  }

  lemma OneSize(slots: seq<Slot>, operation: Option<Size>, size: Size)
    requires forall k :: 0 <= k < |slots| ==> SizeOf(slots[k]) == None || SizeOf(slots[k]) == Some(size)
    requires operation == None || operation == Some(size)
    requires size == Word || Declares(slots, operation, size)
    ensures CommonSize(slots, operation) == Ok(size)
  {
    CommonSizeAgrees(slots, operation);
  }

  predicate Settles(row: Row, slots: seq<Slot>, size: Option<Size>, s: Size) {
    if SizeModifier(row).Optional? then CommonSize(slots, size) == Ok(s) else s == Word
  }

  lemma Settled(src: Source, names: Names, own: u64, slots: seq<Slot>, s: Size, i: Instr)
    requires !src.row.RMul? && !ConditionModifier(src.row).Required?
    requires ConsumeAll(Params(src.row), src.args, names, own) == Ok(slots) && Settles(src.row, slots, src.size, s)
    requires Meant(src.row, Bound(slots, s, Word, src.cond)) == i
    ensures Means(src, names, own, i)
  {
  }

  function RegSlot(id: Reg, size: Option<Size>): Slot {
    Some(Register(SReg(id, size)))
  }

  function Imm(v: u64): Slot {
    Some(Immediate(v))
  }

  function Given(size: Option<Size>): Size {
    if size.Some? then size.value else Word
  }

  /** A literal that fits its field is kept. */
  lemma Fits11(v: u64, own: u64)
    requires v < 0x800
    ensures ToField(PImm(11), v, own) == Ok(v)
  {
    Pow2Values();
    SmallRest(v, 0x800);
  }

  lemma Fits16(v: u64, own: u64)
    requires v < 0x1_0000
    ensures ToField(PImm(16), v, own) == Ok(v)
  {
    Pow2Values();
    SmallRest(v, 0x1_0000);
  }

  lemma Fits22(v: u64, own: u64)
    requires v < 0x40_0000
    ensures ToField(PImm(22), v, own) == Ok(v)
  {
    Pow2Values();
    SmallRest(v, 0x40_0000);
  }

  lemma FitsSmall(v: u64, own: u64)
    requires v < 4
    ensures ToField(PImm(2), v, own) == Ok(v)
  {
    Pow2Values();
    SmallRest(v, 4);
  }

  lemma FitsShift(v: u64, own: u64)
    requires v < 64
    ensures ToField(PImm(6), v, own) == Ok(v) && ToField(PRegImm(7), v, own) == Ok(v)
  {
    Pow2Values();
    SmallRest(v, 64);
    SmallRest(v, 128);
  }

  lemma SmallRest(v: nat, m: int)
    requires v < m
    ensures v % m == v
  {
  }

  // ----------------------------------------------------- the forms in use

  lemma PairMeans(names: Names, own: u64, row: Row, x: Reg, y: Reg)
    requires row.RPushp? || row.RPopp?
    ensures Means(Op(row, [R(x), R(y)]), names, own, if row.RPushp? then Pushp(Word, Some(x), Some(y))
            else Popp(Word, Some(x), Some(y)))
  {
    var slots := [RegSlot(x, None), RegSlot(y, None)];
    Consumed(Params(row), [R(x), R(y)], names, own, slots);
    OneSize(slots, None, Word);
    Settled(Op(row, [R(x), R(y)]), names, own, slots, Word,
            if row.RPushp? then Pushp(Word, Some(x), Some(y)) else Popp(Word, Some(x), Some(y)));
  }

  lemma CopyMeans(names: Names, own: u64, d: Reg, x: Reg)
    ensures Means(Op(RCopy, [R(d), R(x)]), names, own, Copy(Word, d, x))
  {
    var slots := [RegSlot(d, None), RegSlot(x, None)];
    Consumed(Params(RCopy), [R(d), R(x)], names, own, slots);
    OneSize(slots, None, Word);
    Settled(Op(RCopy, [R(d), R(x)]), names, own, slots, Word, Copy(Word, d, x));
  }

  lemma LdsMeans(names: Names, own: u64, d: Reg, x: Reg)
    ensures Means(Op(RLds, [Rb(d), R(x)]), names, own, Lds(Byte, d, x))
  {
    var slots := [RegSlot(d, Some(Byte)), RegSlot(x, None)];
    Consumed(Params(RLds), [Rb(d), R(x)], names, own, slots);
    assert SizeOf(slots[0]) == Some(Byte);
    OneSize(slots, None, Byte);
    Settled(Op(RLds, [Rb(d), R(x)]), names, own, slots, Byte, Lds(Byte, d, x));
  }

  lemma StsMeans(names: Names, own: u64, x: Reg, y: Reg)
    ensures Means(Op(RSts, [R(x), Rb(y)]), names, own, Sts(Byte, x, y))
  {
    var slots := [RegSlot(x, None), RegSlot(y, Some(Byte))];
    Consumed(Params(RSts), [R(x), Rb(y)], names, own, slots);
    assert SizeOf(slots[1]) == Some(Byte);
    OneSize(slots, None, Byte);
    Settled(Op(RSts, [R(x), Rb(y)]), names, own, slots, Byte, Sts(Byte, x, y));
  }

  function SumSlots(d: Reg, x: Reg, z: Option<Size>, n: u64): seq<Slot> {
    [RegSlot(d, z), RegSlot(x, z), Imm(n), Imm(0), Imm(0), Imm(0), Imm(0)]
  }

  lemma SumTaken(names: Names, own: u64, row: Row, d: Reg, x: Reg, z: Option<Size>, n: u64)
    requires (row.RAddImm? || row.RSubImm?) && n < 0x800
    ensures ConsumeAll(Params(row), [RegArg(SReg(d, z)), RegArg(SReg(x, z)), N(n)], names, own)
            == Ok(SumSlots(d, x, z, n))
  {
    Fits11(n, own);
    Consumed(Params(row), [RegArg(SReg(d, z)), RegArg(SReg(x, z)), N(n)], names, own, SumSlots(d, x, z, n));
  }

  lemma SumSized(d: Reg, x: Reg, z: Option<Size>, n: u64)
    ensures CommonSize(SumSlots(d, x, z, n), None) == Ok(Given(z))
  {
    assert SizeOf(SumSlots(d, x, z, n)[0]) == z;
    OneSize(SumSlots(d, x, z, n), None, Given(z));
  }

  lemma AddMeant(d: Reg, x: Reg, z: Option<Size>, n: u64)
    requires n < 0x800
    ensures Meant(RAddImm, Bound(SumSlots(d, x, z, n), Given(z), Word, None))
            == Add(Given(z), Some(d), x, Guest.Small(n), false, false)
  {
    SmallRest(n, 0x800);
  }

  lemma SubMeant(d: Reg, x: Reg, z: Option<Size>, n: u64)
    requires n < 0x800
    ensures Meant(RSubImm, Bound(SumSlots(d, x, z, n), Given(z), Word, None))
            == Sub(Given(z), Some(d), x, Guest.Small(n), false, false)
  {
    SmallRest(n, 0x800);
  }

  /** A sum with a small literal; the registers carry the size, or none. */
  lemma AddMeans(names: Names, own: u64, d: Reg, x: Reg, z: Option<Size>, n: u64)
    requires n < 0x800
    ensures Means(Op(RAddImm, [RegArg(SReg(d, z)), RegArg(SReg(x, z)), N(n)]), names, own,
                  Add(Given(z), Some(d), x, Guest.Small(n), false, false))
  {
    SumTaken(names, own, RAddImm, d, x, z, n);
    SumSized(d, x, z, n);
    AddMeant(d, x, z, n);
    Settled(Op(RAddImm, [RegArg(SReg(d, z)), RegArg(SReg(x, z)), N(n)]), names, own, SumSlots(d, x, z, n), Given(z),
            Add(Given(z), Some(d), x, Guest.Small(n), false, false));
  }

  lemma SubMeans(names: Names, own: u64, d: Reg, x: Reg, z: Option<Size>, n: u64)
    requires n < 0x800
    ensures Means(Op(RSubImm, [RegArg(SReg(d, z)), RegArg(SReg(x, z)), N(n)]), names, own,
                  Sub(Given(z), Some(d), x, Guest.Small(n), false, false))
  {
    SumTaken(names, own, RSubImm, d, x, z, n);
    SumSized(d, x, z, n);
    SubMeant(d, x, z, n);
    Settled(Op(RSubImm, [RegArg(SReg(d, z)), RegArg(SReg(x, z)), N(n)]), names, own, SumSlots(d, x, z, n), Given(z),
            Sub(Given(z), Some(d), x, Guest.Small(n), false, false));
  }

  function CmpSlots(x: Reg, z: Option<Size>, n: u64): seq<Slot> {
    [RegSlot(x, z), Imm(n), Imm(0), Imm(0), Imm(0)]
  }

  lemma CmpImmTaken(names: Names, own: u64, x: Reg, z: Option<Size>, n: u64)
    requires n < 0x800
    ensures ConsumeAll(Params(RCmpImm), [RegArg(SReg(x, z)), N(n)], names, own) == Ok(CmpSlots(x, z, n))
    ensures CommonSize(CmpSlots(x, z, n), None) == Ok(Given(z))
  {
    Fits11(n, own);
    Consumed(Params(RCmpImm), [RegArg(SReg(x, z)), N(n)], names, own, CmpSlots(x, z, n));
    assert SizeOf(CmpSlots(x, z, n)[0]) == z;
    OneSize(CmpSlots(x, z, n), None, Given(z));
  }

  lemma CmpImmMeant(x: Reg, z: Option<Size>, n: u64)
    requires n < 0x800
    ensures Meant(RCmpImm, Bound(CmpSlots(x, z, n), Given(z), Word, None))
            == Sub(Given(z), None, x, Guest.Small(n), false, true)
  {
    SmallRest(n, 0x800);
  }

  lemma CmpImmMeans(names: Names, own: u64, x: Reg, z: Option<Size>, n: u64)
    requires n < 0x800
    ensures Means(Op(RCmpImm, [RegArg(SReg(x, z)), N(n)]), names, own,
            Sub(Given(z), None, x, Guest.Small(n), false, true))
  {
    CmpImmTaken(names, own, x, z, n);
    CmpImmMeant(x, z, n);
    Settled(Op(RCmpImm, [RegArg(SReg(x, z)), N(n)]), names, own, CmpSlots(x, z, n), Given(z),
            Sub(Given(z), None, x, Guest.Small(n), false, true));
  }

  lemma CmpRegTaken(names: Names, own: u64, x: Reg, y: Reg) returns (slots: seq<Slot>)
    ensures slots == [RegSlot(x, None), RegSlot(y, None), Imm(0)]
    ensures ConsumeAll(Params(RCmpReg), [R(x), R(y)], names, own) == Ok(slots) && CommonSize(slots, None) == Ok(Word)
  {
    slots := [RegSlot(x, None), RegSlot(y, None), Imm(0)];
    Consumed(Params(RCmpReg), [R(x), R(y)], names, own, slots);
    OneSize(slots, None, Word);
  }

  lemma CmpRegMeant(slots: seq<Slot>, x: Reg, y: Reg)
    requires slots == [RegSlot(x, None), RegSlot(y, None), Imm(0)]
    ensures Meant(RCmpReg, Bound(slots, Word, Word, None)) == Sub(Word, None, x, AluReg(y), false, true)
  {
  }

  lemma CmpRegMeans(names: Names, own: u64, x: Reg, y: Reg)
    ensures Means(Op(RCmpReg, [R(x), R(y)]), names, own, Sub(Word, None, x, AluReg(y), false, true))
  {
    var slots := CmpRegTaken(names, own, x, y);
    CmpRegMeant(slots, x, y);
    Settled(Op(RCmpReg, [R(x), R(y)]), names, own, slots, Word, Sub(Word, None, x, AluReg(y), false, true));
  }

  lemma DivTaken(names: Names, own: u64, q: Reg, m: Reg, x: Reg, y: Reg) returns (slots: seq<Slot>)
    ensures slots == [RegSlot(q, None), RegSlot(m, None), RegSlot(x, None), RegSlot(y, None), Imm(0), Imm(0)]
    ensures ConsumeAll(Params(RDiv), [R(q), R(m), R(x), R(y)], names, own) == Ok(slots)
            && CommonSize(slots, None) == Ok(Word)
  {
    slots := [RegSlot(q, None), RegSlot(m, None), RegSlot(x, None), RegSlot(y, None), Imm(0), Imm(0)];
    Consumed(Params(RDiv), [R(q), R(m), R(x), R(y)], names, own, slots);
    OneSize(slots, None, Word);
  }

  lemma DivMeant(slots: seq<Slot>, q: Reg, m: Reg, x: Reg, y: Reg)
    requires slots == [RegSlot(q, None), RegSlot(m, None), RegSlot(x, None), RegSlot(y, None), Imm(0), Imm(0)]
    ensures Meant(RDiv, Bound(slots, Word, Word, None)) == Div(Word, q, m, x, y, false, false)
  {
  }

  lemma DivMeans(names: Names, own: u64, q: Reg, m: Reg, x: Reg, y: Reg)
    ensures Means(Op(RDiv, [R(q), R(m), R(x), R(y)]), names, own, Div(Word, q, m, x, y, false, false))
  {
    var slots := DivTaken(names, own, q, m, x, y);
    DivMeant(slots, q, m, x, y);
    Settled(Op(RDiv, [R(q), R(m), R(x), R(y)]), names, own, slots, Word, Div(Word, q, m, x, y, false, false));
  }

  lemma AndConsumed(names: Names, own: u64, d: Reg, x: Reg, n: u64)
    requires n < 0x800
    ensures ConsumeAll(Params(RAndImm), [R(d), R(x), N(n)], names, own)
            == Ok([RegSlot(d, None), RegSlot(x, None), Imm(n), Imm(0), Imm(0), Imm(0)])
  {
    Fits11(n, own);
    Consumed(Params(RAndImm), [R(d), R(x), N(n)], names, own,
        [RegSlot(d, None), RegSlot(x, None), Imm(n), Imm(0), Imm(0), Imm(0)]);
  }

  lemma AndTaken(names: Names, own: u64, d: Reg, x: Reg, n: u64) returns (slots: seq<Slot>)
    requires n < 0x800
    ensures slots == [RegSlot(d, None), RegSlot(x, None), Imm(n), Imm(0), Imm(0), Imm(0)]
    ensures ConsumeAll(Params(RAndImm), [R(d), R(x), N(n)], names, own) == Ok(slots)
            && CommonSize(slots, Some(Byte)) == Ok(Byte)
  {
    slots := [RegSlot(d, None), RegSlot(x, None), Imm(n), Imm(0), Imm(0), Imm(0)];
    AndConsumed(names, own, d, x, n);
    OneSize(slots, Some(Byte), Byte);
  }

  lemma AndMeant(slots: seq<Slot>, d: Reg, x: Reg, n: u64)
    requires n < 0x800 && slots == [RegSlot(d, None), RegSlot(x, None), Imm(n), Imm(0), Imm(0), Imm(0)]
    ensures Meant(RAndImm, Bound(slots, Byte, Word, None)) == Logic(AND, Byte, Some(d), x, Guest.Small(n), false)
  {
    SmallRest(n, 0x800);
  }

  /** `and.b`: the size stands after the operation. */
  lemma AndByteMeans(names: Names, own: u64, d: Reg, x: Reg, n: u64)
    requires n < 0x800
    ensures Means(Source(RAndImm, None, Some(Byte), [R(d), R(x), N(n)]), names, own,
            Logic(AND, Byte, Some(d), x, Guest.Small(n), false))
  {
    var slots := AndTaken(names, own, d, x, n);
    AndMeant(slots, d, x, n);
    Settled(Source(RAndImm, None, Some(Byte), [R(d), R(x), N(n)]), names, own, slots, Byte,
            Logic(AND, Byte, Some(d), x, Guest.Small(n), false));
  }

  lemma ShrConsumed(names: Names, own: u64, d: Reg, x: Reg, n: u64)
    requires n < 64
    ensures ConsumeAll(Params(RShr), [R(d), R(x), N(n)], names, own)
            == Ok([RegSlot(d, None), RegSlot(x, None), Imm(n), Imm(0), Imm(0)])
  {
    FitsShift(n, own);
    Consumed(Params(RShr), [R(d), R(x), N(n)], names, own,
        [RegSlot(d, None), RegSlot(x, None), Imm(n), Imm(0), Imm(0)]);
  }

  lemma ShrMeant(slots: seq<Slot>, d: Reg, x: Reg, n: u64)
    requires n < 64 && slots == [RegSlot(d, None), RegSlot(x, None), Imm(n), Imm(0), Imm(0)]
    ensures Meant(RShr, Bound(slots, Word, Word, None)) == ShiftRight(Word, Some(d), x, ShiftImm(n), false, false)
  {
    SmallRest(n, 0x80);
  }

  lemma ShrTaken(names: Names, own: u64, d: Reg, x: Reg, n: u64) returns (slots: seq<Slot>)
    requires n < 64
    ensures slots == [RegSlot(d, None), RegSlot(x, None), Imm(n), Imm(0), Imm(0)]
    ensures ConsumeAll(Params(RShr), [R(d), R(x), N(n)], names, own) == Ok(slots) && CommonSize(slots, None) == Ok(Word)
  {
    slots := [RegSlot(d, None), RegSlot(x, None), Imm(n), Imm(0), Imm(0)];
    ShrConsumed(names, own, d, x, n);
    OneSize(slots, None, Word);
  }

  lemma ShrMeans(names: Names, own: u64, d: Reg, x: Reg, n: u64)
    requires n < 64
    ensures Means(Op(RShr, [R(d), R(x), N(n)]), names, own, ShiftRight(Word, Some(d), x, ShiftImm(n), false, false))
  {
    var slots := ShrTaken(names, own, d, x, n);
    ShrMeant(slots, d, x, n);
    Settled(Op(RShr, [R(d), R(x), N(n)]), names, own, slots, Word,
        ShiftRight(Word, Some(d), x, ShiftImm(n), false, false));
  }

  lemma LdiTaken(names: Names, own: u64, d: Reg, v: u64, shift: u64, clear: u64)
    requires v < 0x1_0000 && shift < 64 && clear < 4
    ensures ConsumeAll(Params(RLdi), [R(d), N(v), N(shift), N(clear)], names, own)
            == Ok([RegSlot(d, None), Imm(v), Imm(shift), Imm(clear)])
  {
    Fits16(v, own);
    FitsShift(shift, own);
    FitsSmall(clear, own);
    Consumed(Params(RLdi), [R(d), N(v), N(shift), N(clear)], names, own,
        [RegSlot(d, None), Imm(v), Imm(shift), Imm(clear)]);
  }

  lemma LdiShortTaken(names: Names, own: u64, d: Reg, v: u64)
    requires v < 0x1_0000
    ensures ConsumeAll(Params(RLdi), [R(d), N(v)], names, own) == Ok([RegSlot(d, None), Imm(v), Imm(0), Imm(0)])
  {
    Fits16(v, own);
    Consumed(Params(RLdi), [R(d), N(v)], names, own, [RegSlot(d, None), Imm(v), Imm(0), Imm(0)]);
  }

  lemma LdiMeant(d: Reg, v: u64, shift: u64, clear: u64)
    requires v < 0x1_0000 && shift < 64 && clear < 4
    ensures Meant(RLdi, Bound([RegSlot(d, None), Imm(v), Imm(shift), Imm(clear)], Word, Word, None))
            == Ldi(d, v, shift, clear)
  {
    SmallRest(v, 0x1_0000);
    SmallRest(shift, 0x40);
    SmallRest(clear, 4);
  }

  lemma LdiMeans(names: Names, own: u64, d: Reg, v: u64, shift: u64, clear: u64)
    requires v < 0x1_0000 && shift < 64 && clear < 4
    ensures Means(Op(RLdi, [R(d), N(v), N(shift), N(clear)]), names, own, Ldi(d, v, shift, clear))
  {
    LdiTaken(names, own, d, v, shift, clear);
    LdiMeant(d, v, shift, clear);
    Settled(Op(RLdi, [R(d), N(v), N(shift), N(clear)]), names, own,
        [RegSlot(d, None), Imm(v), Imm(shift), Imm(clear)], Word,
            Ldi(d, v, shift, clear));
  }

  /** `ldi` without shift and clear bits. */
  lemma LdiShortMeans(names: Names, own: u64, d: Reg, v: u64)
    requires v < 0x1_0000
    ensures Means(Op(RLdi, [R(d), N(v)]), names, own, Ldi(d, v, 0, 0))
  {
    LdiShortTaken(names, own, d, v);
    LdiMeant(d, v, 0, 0);
    Settled(Op(RLdi, [R(d), N(v)]), names, own, [RegSlot(d, None), Imm(v), Imm(0), Imm(0)], Word, Ldi(d, v, 0, 0));
  }

  lemma ExcTaken(names: Names, own: u64, v: u64)
    requires v < 0x1_0000
    ensures ConsumeAll(Params(RExc), [N(v)], names, own) == Ok([Imm(v)])
  {
    Fits16(v, own);
    Consumed(Params(RExc), [N(v)], names, own, [Imm(v)]);
  }

  lemma ExcMeans(names: Names, own: u64, v: u64)
    requires v < 0x1_0000
    ensures Means(Op(RExc, [N(v)]), names, own, Exc(v))
  {
    ExcTaken(names, own, v);
    SmallRest(v, 0x1_0000);
    Settled(Op(RExc, [N(v)]), names, own, [Imm(v)], Word, Exc(v));
  }

  lemma LdmTaken(names: Names, own: u64, d: Reg, id: u64)
    requires id < 0x40_0000
    ensures ConsumeAll(Params(RLdm), [R(d), N(id)], names, own) == Ok([RegSlot(d, None), Imm(id)])
  {
    Fits22(id, own);
    Consumed(Params(RLdm), [R(d), N(id)], names, own, [RegSlot(d, None), Imm(id)]);
  }

  lemma LdmMeans(names: Names, own: u64, d: Reg, id: u64)
    requires id < 0x40_0000
    ensures Means(Op(RLdm, [R(d), N(id)]), names, own, Ldm(d, id))
  {
    LdmTaken(names, own, d, id);
    SmallRest(id, 0x40_0000);
    Settled(Op(RLdm, [R(d), N(id)]), names, own, [RegSlot(d, None), Imm(id)], Word, Ldm(d, id));
  }

  lemma StmTaken(names: Names, own: u64, arg: Expr, id: u64, x: Reg)
    requires Eval(arg, names, own) == Ok(id) && id < 0x40_0000
    ensures ConsumeAll(Params(RStm), [ImmArg(arg), R(x)], names, own) == Ok([Imm(id), RegSlot(x, None)])
  {
    Fits22(id, own);
    Consumed(Params(RStm), [ImmArg(arg), R(x)], names, own, [Imm(id), RegSlot(x, None)]);
  }

  lemma StmMeans(names: Names, own: u64, arg: Expr, id: u64, x: Reg)
    requires Eval(arg, names, own) == Ok(id) && id < 0x40_0000
    ensures Means(Op(RStm, [ImmArg(arg), R(x)]), names, own, Stm(id, x))
  {
    StmTaken(names, own, arg, id, x);
    SmallRest(id, 0x40_0000);
    Settled(Op(RStm, [ImmArg(arg), R(x)]), names, own, [Imm(id), RegSlot(x, None)], Word, Stm(id, x));
  }

  lemma BareMeans(names: Names, own: u64, row: Row)
    requires row.RRet? || row.REret? || row.RUdf?
    ensures Means(Op(row, []), names, own, if row.RRet? then Ret else if row.REret? then Eret else Udf)
  {
    Consumed(Params(row), [], names, own, []);
    Settled(Op(row, []), names, own, [], Word, if row.RRet? then Ret else if row.REret? then Eret else Udf);
  }

  // ------------------------------------------------- jumps within the program

  /** Near the bottom of memory a wrapped sum that is an address is not wrapped. */
  lemma NotWrapped(x: int, target: u64)
    requires -0x100_0000 < x < 0x100_0000 && target < 0x1000 && Wrap(x) == target
    ensures x == target
  {
  }

  lemma NearDistance(own: u64, target: u64)
    requires own < 0x1000 && target < 0x1000
    ensures Distance(own, target) == target - own - 4
  {
  }

  lemma NearOffset(own: u64, target: u64, c: int)
    requires own < 0x1000 && target < 0x1000 && own % 4 == 0 && target % 4 == 0 && own + 4 + 4 * c == target
    ensures OffsetField(own, target, 0x40_0000) == c
  {
    OffsetReaches(own, target, 0x40_0000);
    NearDistance(own, target);
    var f := OffsetField(own, target, 0x40_0000);
    NotWrapped(own + 4 + 4 * f, target);
  }

  lemma RelConsumed(names: Names, own: u64, name: string, target: u64)
    requires Worth(names, name, target) && target % 4 == 0
    ensures ConsumeAll([Param('a', PRel(22), false)], [Ref(name)], names, own)
            == Ok([Imm(CutOffset(own, target, 0x40_0000))])
  {
    RelativeField(PRel(22), target, own, 0x40_0000);
    Consumed([Param('a', PRel(22), false)], [Ref(name)], names, own, [Imm(CutOffset(own, target, 0x40_0000))]);
  }

  lemma RelTaken(src: Source, names: Names, own: u64, name: string, target: u64) returns (slots: seq<Slot>)
    requires (src.row.RJmpr? || src.row.RCallr?) && src.args == [Ref(name)] && Worth(names, name, target)
            && target % 4 == 0
    ensures slots == [Imm(CutOffset(own, target, 0x40_0000))]
            && ConsumeAll(Params(src.row), src.args, names, own) == Ok(slots)
  {
    OneRelative(src.row);
    RelConsumed(names, own, name, target);
    slots := [Imm(CutOffset(own, target, 0x40_0000))];
  }

  lemma RelMeans(src: Source, names: Names, own: u64, name: string, target: u64, c: rel22)
    requires src.row.RJmpr? || src.row.RCallr?
    requires src.args == [Ref(name)] && Worth(names, name, target)
    requires own < 0x1000 && target < 0x1000 && own % 4 == 0 && target % 4 == 0 && own + 4 + 4 * c == target
    ensures Means(src, names, own, if src.row.RJmpr? then Jmpr(src.cond, JumpRel(c)) else Callr(src.cond, JumpRel(c)))
  {
    var slots := RelTaken(src, names, own, name, target);
    NearOffset(own, target, c);
    Settled(src, names, own, slots, Word, if src.row.RJmpr? then Jmpr(src.cond, JumpRel(c))
        else Callr(src.cond, JumpRel(c)));
  }

  function ByteCut(own: u64, target: u64): u64 {
    Wrap(Signed(Wrap(target - Wrap(own + 4)), 0x40_0000))
  }

  lemma NearBytes(own: u64, target: u64, c: int)
    requires own < 0x1000 && target < 0x1000 && own + 4 + c == target
    ensures Signed(ByteCut(own, target), 0x40_0000) == c
  {
    ByteOffsetReaches(own, target);
    NearDistance(own, target);
    NotWrapped(own + 4 + Signed(ByteCut(own, target), 0x40_0000), target);
  }

  lemma LdrTaken(names: Names, own: u64, d: Reg, name: string, target: u64) returns (slots: seq<Slot>)
    requires Worth(names, name, target)
    ensures slots == [RegSlot(d, None), Imm(ByteCut(own, target))]
    ensures ConsumeAll(Params(RLdr), [R(d), Ref(name)], names, own) == Ok(slots)
  {
    ByteField(target, own);
    slots := [RegSlot(d, None), Imm(ByteCut(own, target))];
    Consumed(Params(RLdr), [R(d), Ref(name)], names, own, slots);
  }

  lemma LdrMeans(names: Names, own: u64, d: Reg, name: string, target: u64, c: rel22)
    requires Worth(names, name, target) && own < 0x1000 && target < 0x1000 && own + 4 + c == target
    ensures Means(Op(RLdr, [R(d), Ref(name)]), names, own, Ldr(d, c))
  {
    NearBytes(own, target, c);
    var slots := LdrTaken(names, own, d, name, target);
    Settled(Op(RLdr, [R(d), Ref(name)]), names, own, slots, Word, Ldr(d, c));
  }

  // ------------------------------------------------ reading the forms off

  predicate IsR(arg: Arg) {
    arg.RegArg? && arg.r.size.None?
  }

  predicate IsRb(arg: Arg) {
    arg.RegArg? && arg.r.size == Some(Byte)
  }

  predicate IsN(arg: Arg, limit: int) {
    arg.ImmArg? && arg.e.Int? && arg.e.v < limit
  }

  /** A name with a value at the bottom of memory. */
  predicate IsNear(arg: Arg, names: Names) {
    arg.ImmArg? && arg.e.Ident? && arg.e.name in names && names[arg.e.name] < 0x1000
  }

  predicate Unsuffixed(src: Source) {
    src.cond.None? && src.size.None?
  }

  /** What the lines the program uses stand for, form by form. */
  function MoveForm(src: Source): Option<Instr> {
    var args := src.args;
    if |args| != 2 || !Unsuffixed(src) then None
    else match src.row
      case RPushp => if IsR(args[0]) && IsR(args[1]) then Some(Pushp(Word, Some(args[0].r.id), Some(args[1].r.id)))
          else None
      case RPopp => if IsR(args[0]) && IsR(args[1]) then Some(Popp(Word, Some(args[0].r.id), Some(args[1].r.id)))
          else None
      case RCopy => if IsR(args[0]) && IsR(args[1]) then Some(Copy(Word, args[0].r.id, args[1].r.id)) else None
      case RLds => if IsRb(args[0]) && IsR(args[1]) then Some(Lds(Byte, args[0].r.id, args[1].r.id)) else None
      case RSts => if IsR(args[0]) && IsRb(args[1]) then Some(Sts(Byte, args[0].r.id, args[1].r.id)) else None
      case RCmpReg => if IsR(args[0])
          && IsR(args[1]) then Some(Sub(Word, None, args[0].r.id, AluReg(args[1].r.id), false, true)) else None
      case RCmpImm =>
        if args[0].RegArg? && IsN(args[1], 0x800)
        then Some(Sub(Given(args[0].r.size), None, args[0].r.id, Guest.Small(args[1].e.v), false, true)) else None
      case RLdi => if IsR(args[0]) && IsN(args[1], 0x1_0000) then Some(Ldi(args[0].r.id, args[1].e.v, 0, 0)) else None
      case RLdm => if IsR(args[0]) && IsN(args[1], 0x40_0000) then Some(Ldm(args[0].r.id, args[1].e.v)) else None
      case _ => None
  }

  function SumForm(src: Source): Option<Instr> {
    var args := src.args;
    if |args| != 3 || !Unsuffixed(src) || !args[0].RegArg? || !args[1].RegArg?
        || args[0].r.size != args[1].r.size then None
    else match src.row
      case RAddImm =>
        if IsN(args[2], 0x800) then Some(Add(Given(args[0].r.size), Some(args[0].r.id), args[1].r.id,
            Guest.Small(args[2].e.v), false, false))
        else None
      case RSubImm =>
        if IsN(args[2], 0x800) then Some(Sub(Given(args[0].r.size), Some(args[0].r.id), args[1].r.id,
            Guest.Small(args[2].e.v), false, false))
        else None
      case RShr =>
        if IsN(args[2], 64) && args[0].r.size.None?
        then Some(ShiftRight(Word, Some(args[0].r.id), args[1].r.id, ShiftImm(args[2].e.v), false, false)) else None
      case _ => None
  }

  function LongForm(src: Source): Option<Instr> {
    var args := src.args;
    if |args| != 4 || !Unsuffixed(src) || !IsR(args[0]) then None
    else match src.row
      case RDiv =>
        if IsR(args[1]) && IsR(args[2]) && IsR(args[3])
        then Some(Div(Word, args[0].r.id, args[1].r.id, args[2].r.id, args[3].r.id, false, false)) else None
      case RLdi =>
        if IsN(args[1], 0x1_0000) && IsN(args[2], 64) && IsN(args[3], 4)
        then Some(Ldi(args[0].r.id, args[1].e.v, args[2].e.v, args[3].e.v)) else None
      case _ => None
  }

  function ShortForm(src: Source): Option<Instr> {
    if !Unsuffixed(src) then None
    else match src.row
      case RExc => if |src.args| == 1 && IsN(src.args[0], 0x1_0000) then Some(Exc(src.args[0].e.v)) else None
      case RRet => if src.args == [] then Some(Ret) else None
      case REret => if src.args == [] then Some(Eret) else None
      case RUdf => if src.args == [] then Some(Udf) else None
      case _ => None
  }

  /** `and.b` with a literal. */
  function AndForm(src: Source): Option<Instr> {
    if src.row.RAndImm? && src.cond.None? && src.size == Some(Byte) && |src.args| == 3
       && IsR(src.args[0]) && IsR(src.args[1]) && IsN(src.args[2], 0x800)
    then Some(Logic(AND, Byte, Some(src.args[0].r.id), src.args[1].r.id, Guest.Small(src.args[2].e.v), false)) else None
  }

  /** A machine register by number or name. */
  function StmForm(src: Source, names: Names, own: u64): Option<Instr> {
    if src.row.RStm? && Unsuffixed(src) && |src.args| == 2 && src.args[0].ImmArg? && IsR(src.args[1])
       && Eval(src.args[0].e, names, own).Ok? && Eval(src.args[0].e, names, own).value < 0x40_0000
    then Some(Stm(Eval(src.args[0].e, names, own).value, src.args[1].r.id)) else None
  }

  /** A jump, call or load of a label at the bottom of memory. */
  function RelForm(src: Source, names: Names, own: u64): Option<Instr> {
    if own >= 0x1000 || own % 4 != 0 || src.size.Some? then None
    else match src.row
      case RJmpr =>
        if |src.args| == 1 && IsNear(src.args[0], names) && names[src.args[0].e.name] % 4 == 0
        then Some(Jmpr(src.cond, JumpRel((names[src.args[0].e.name] - own - 4) / 4))) else None
      case RCallr =>
        if |src.args| == 1 && IsNear(src.args[0], names) && names[src.args[0].e.name] % 4 == 0
        then Some(Callr(src.cond, JumpRel((names[src.args[0].e.name] - own - 4) / 4))) else None
      case RLdr =>
        if |src.args| == 2 && src.cond.None? && IsR(src.args[0]) && IsNear(src.args[1], names)
        then Some(Ldr(src.args[0].r.id, names[src.args[1].e.name] - own - 4)) else None
      case _ => None
  }

  function Reading(src: Source, names: Names, own: u64): Option<Instr> {
    match src.row
    case RStm => StmForm(src, names, own)
    case RJmpr => RelForm(src, names, own)
    case RCallr => RelForm(src, names, own)
    case RLdr => RelForm(src, names, own)
    case RAndImm => AndForm(src)
    case _ =>
      match |src.args|
      case 2 => MoveForm(src)
      case 3 => SumForm(src)
      case 4 => LongForm(src)
      case _ => ShortForm(src)
  }

  lemma MoveMeans(src: Source, names: Names, own: u64)
    requires MoveForm(src).Some?
    ensures Means(src, names, own, MoveForm(src).value)
  {
    var x, y := src.args[0], src.args[1];
    assert src.args == [x, y];
    match src.row
    case RPushp => PairMeans(names, own, RPushp, x.r.id, y.r.id);
    case RPopp => PairMeans(names, own, RPopp, x.r.id, y.r.id);
    case RCopy => CopyMeans(names, own, x.r.id, y.r.id);
    case RLds => LdsMeans(names, own, x.r.id, y.r.id);
    case RSts => StsMeans(names, own, x.r.id, y.r.id);
    case RCmpReg => CmpRegMeans(names, own, x.r.id, y.r.id);
    case RCmpImm => CmpImmMeans(names, own, x.r.id, x.r.size, y.e.v);
    case RLdi => LdiShortMeans(names, own, x.r.id, y.e.v);
    case RLdm => LdmMeans(names, own, x.r.id, y.e.v);
    case _ =>
  }

  lemma ThreeMeans(src: Source, names: Names, own: u64)
    requires SumForm(src).Some?
    ensures Means(src, names, own, SumForm(src).value)
  {
    var d, x, n := src.args[0], src.args[1], src.args[2];
    assert src.args == [d, x, n];
    match src.row
    case RAddImm => AddMeans(names, own, d.r.id, x.r.id, d.r.size, n.e.v);
    case RSubImm => SubMeans(names, own, d.r.id, x.r.id, d.r.size, n.e.v);
    case RShr => ShrMeans(names, own, d.r.id, x.r.id, n.e.v);
    case _ =>
  }

  lemma LongMeans(src: Source, names: Names, own: u64)
    requires LongForm(src).Some?
    ensures Means(src, names, own, LongForm(src).value)
  {
    var args := src.args;
    assert args == [args[0], args[1], args[2], args[3]];
    if src.row.RDiv? {
      DivMeans(names, own, args[0].r.id, args[1].r.id, args[2].r.id, args[3].r.id);
    } else {
      LdiMeans(names, own, args[0].r.id, args[1].e.v, args[2].e.v, args[3].e.v);
    }
  }

  lemma ShortMeans(src: Source, names: Names, own: u64)
    requires ShortForm(src).Some?
    ensures Means(src, names, own, ShortForm(src).value)
  {
    if src.row.RExc? {
      assert src.args == [src.args[0]];
      ExcMeans(names, own, src.args[0].e.v);
    } else {
      BareMeans(names, own, src.row);
    }
  }

  lemma AndFormMeans(src: Source, names: Names, own: u64)
    requires AndForm(src).Some?
    ensures Means(src, names, own, AndForm(src).value)
  {
    assert src.args == [src.args[0], src.args[1], src.args[2]];
    AndByteMeans(names, own, src.args[0].r.id, src.args[1].r.id, src.args[2].e.v);
  }

  lemma StmFormMeans(src: Source, names: Names, own: u64)
    requires StmForm(src, names, own).Some?
    ensures Means(src, names, own, StmForm(src, names, own).value)
  {
    assert src.args == [src.args[0], src.args[1]];
    StmMeans(names, own, src.args[0].e, Eval(src.args[0].e, names, own).value, src.args[1].r.id);
  }

  lemma RelFormMeans(src: Source, names: Names, own: u64)
    requires RelForm(src, names, own).Some?
    ensures Means(src, names, own, RelForm(src, names, own).value)
  {
    if src.row.RLdr? {
      var name := src.args[1].e.name;
      assert src.args == [src.args[0], Ref(name)];
      LdrMeans(names, own, src.args[0].r.id, name, names[name], names[name] - own - 4);
    } else {
      var name := src.args[0].e.name;
      assert src.args == [Ref(name)];
      RelMeans(src, names, own, name, names[name], (names[name] - own - 4) / 4);
    }
  }

  /** Reading a line by its form is what the assembler makes of it. */
  lemma ReadingMeans(src: Source, names: Names, own: u64)
    requires Reading(src, names, own).Some?
    ensures Means(src, names, own, Reading(src, names, own).value)
  {
    match src.row
    case RStm => StmFormMeans(src, names, own);
    case RJmpr => RelFormMeans(src, names, own);
    case RCallr => RelFormMeans(src, names, own);
    case RLdr => RelFormMeans(src, names, own);
    case RAndImm => AndFormMeans(src, names, own);
    case _ =>
      match |src.args|
      case 2 => MoveMeans(src, names, own);
      case 3 => ThreeMeans(src, names, own);
      case 4 => LongMeans(src, names, own);
      case _ => ShortMeans(src, names, own);
  }
}
