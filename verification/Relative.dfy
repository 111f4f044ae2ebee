/**
 Relative addressing end to end: the offset the assembler computes, truncates and encodes
 is the one that, decoded, sign-extended and added by the emulator, gives the target.
 */
module Relative {
  import opened Bits
  import opened Isa
  import opened Memory
  import opened Machine
  import opened Runs
  import opened Util
  import opened Expressions
  import opened Table
  import opened Operands
  import opened Meaning
  import opened Emission
  import D = Decoder

  /** The signed distance from the instruction after `own` to the target. */
  function Distance(own: u64, target: u64): int {
    Signed(target - own - 4, W64)
  }

  /** `at` is the target exactly when the target is less than `limit` bytes away. */
  predicate ExactWithin(own: u64, target: u64, limit: int, at: u64) {
    at == target <==> -limit <= Distance(own, target) < limit
  }

  /** The offset in instructions, cut by the assembler to a signed field of m values. */
  function CutOffset(own: u64, target: u64, m: int): u64
    requires m > 0
  {
    Wrap(Signed(Wrap(target / 4 - Wrap(own + 4) / 4), m))
  }

  /** The same field as the emulator extends it. */
  function OffsetField(own: u64, target: u64, m: int): int
    requires m > 0
  {
    Signed(CutOffset(own, target, m), m)
  }

  // ------------------------------------------------------------ arithmetic

  /** A field of m possible values keeps a number modulo m. */
  lemma FieldKeeps(x: int, m: int)
    requires m == 0x2000 || m == 0x40_0000
    ensures Signed(Wrap(Signed(Wrap(x), m)), m) == Signed(x, m)
  {
    if m == 0x2000 { WrapModNear(x); WrapModNear(Signed(Wrap(x), m)); }
        else { WrapModFar(x); WrapModFar(Signed(Wrap(x), m)); }
  }

  lemma WrapModNear(x: int)
    ensures Wrap(x) % 0x2000 == x % 0x2000
  {
  }

  lemma WrapModFar(x: int)
    ensures Wrap(x) % 0x40_0000 == x % 0x40_0000
  {
  }

  /** Two distances in instructions that differ by a multiple of 2^62, one of which fits its field. */
  lemma FieldIsExact(d: int, e: int, n: int, m: int)
    requires m == 0x2000 || m == 0x40_0000
    requires e == d + n * 0x4000_0000_0000_0000
    ensures Signed(d, m) == Signed(e, m)
    ensures -(m / 2) <= e < m / 2 ==> Signed(d, m) == e
  {
    if m == 0x2000 { SameModNear(d, n); } else { SameModFar(d, n); }
    if -(m / 2) <= e < m / 2 {
      if m == 0x2000 { CentreNear(e); } else { CentreFar(e); }
    }
  }

  lemma SameModNear(d: int, n: int)
    ensures (d + n * 0x4000_0000_0000_0000) % 0x2000 == d % 0x2000
  {
    assert n * 0x4000_0000_0000_0000 == n * 0x2_0000_0000_0000 * 0x2000;
  }

  lemma SameModFar(d: int, n: int)
    ensures (d + n * 0x4000_0000_0000_0000) % 0x40_0000 == d % 0x40_0000
  {
    assert n * 0x4000_0000_0000_0000 == n * 0x100_0000_0000 * 0x40_0000;
  }

  lemma CentreNear(e: int)
    requires -0x1000 <= e < 0x1000
    ensures Signed(e, 0x2000) == e
  {
  }

  lemma CentreFar(e: int)
    requires -0x20_0000 <= e < 0x20_0000
    ensures Signed(e, 0x40_0000) == e
  {
  }

  /** The distance in bytes is four times the distance in instructions, up to wrapping. */
  lemma DistanceInInstructions(own: u64, target: u64) returns (n: int)
    requires own % 4 == 0 && target % 4 == 0
    ensures Distance(own, target) == 4 * (target / 4 - Wrap(own + 4) / 4 + n * 0x4000_0000_0000_0000)
  {
    var next := Wrap(own + 4);
    var k := (own + 4 - next) / W64;
    assert own + 4 == next + k * W64;
    var y := target - own - 4;
    var j := (y - Distance(own, target)) / W64;
    assert y == Distance(own, target) + j * W64;
    n := -k - j;
  }

  /** A centred distance is the only number of its range with its residue. */
  lemma OnlyCentred(y: int, x: int)
    requires Wrap(x) == Wrap(y) && -(W64 / 2) <= x < W64 / 2
    ensures Signed(y, W64) == x
  {
  }

  lemma FieldReaches(own: u64, target: u64, m: int, c: int, e: int)
    requires m == 0x2000 || m == 0x40_0000
    requires Distance(own, target) == 4 * e && -(m / 2) <= c < m / 2
    requires -(m / 2) <= e < m / 2 ==> c == e
    ensures Wrap(own + 4 + 4 * c) == target <==> -2 * m <= Distance(own, target) < 2 * m
  {
    if -(m / 2) <= e < m / 2 { DistanceLands(own, target); }
    if Wrap(own + 4 + 4 * c) == target { BackToDistance(own, target, 4 * c); }
  }

  lemma CentreRange(x: int, m: int)
    requires m == 0x2000 || m == 0x40_0000
    ensures -(m / 2) <= Signed(x, m) < m / 2
  {
  }

  /** Where a jump with the encoded offset goes, against where it should. */
  lemma OffsetReaches(own: u64, target: u64, m: int)
    requires own % 4 == 0 && target % 4 == 0
    requires m == 0x2000 || m == 0x40_0000
    ensures ExactWithin(own, target, 2 * m, Wrap(own + 4 + 4 * OffsetField(own, target, m)))
  {
    var d := target / 4 - Wrap(own + 4) / 4;
    FieldKeeps(d, m);
    var n := DistanceInInstructions(own, target);
    var e := d + n * 0x4000_0000_0000_0000;
    FieldIsExact(d, e, n, m);
    CentreRange(d, m);
    FieldReaches(own, target, m, Signed(d, m), e);
  }

  lemma DistanceLands(own: u64, target: u64)
    ensures Wrap(own + 4 + Distance(own, target)) == target
  {
  }

  lemma BackToDistance(own: u64, target: u64, x: int)
    requires Wrap(own + 4 + x) == target && -(W64 / 2) <= x < W64 / 2
    ensures Distance(own, target) == x
  {
    OnlyCentred(target - own - 4, x);
  }

  /** The same for distances in bytes. */
  lemma ByteOffsetReaches(own: u64, target: u64)
    ensures var c := Signed(Wrap(Signed(Wrap(target - Wrap(own + 4)), 0x40_0000)), 0x40_0000);
            ExactWithin(own, target, 0x20_0000, Wrap(own + 4 + c))
  {
    var d := target - Wrap(own + 4);
    FieldKeeps(d, 0x40_0000);
    var n := DistanceInBytes(own, target);
    BytesAreExact(d, Distance(own, target), n);
    CentreRange(d, 0x40_0000);
    var c := Signed(d, 0x40_0000);
    if -0x20_0000 <= Distance(own, target) < 0x20_0000 { DistanceLands(own, target); }
    if Wrap(own + 4 + c) == target { BackToDistance(own, target, c); }
  }

  lemma DistanceInBytes(own: u64, target: u64) returns (n: int)
    ensures Distance(own, target) == target - Wrap(own + 4) + n * W64
  {
    var next := Wrap(own + 4);
    var k := (own + 4 - next) / W64;
    assert own + 4 == next + k * W64;
    var y := target - own - 4;
    var j := (y - Distance(own, target)) / W64;
    assert y == Distance(own, target) + j * W64;
    n := -k - j;
  }

  lemma BytesAreExact(d: int, e: int, n: int)
    requires e == d + n * W64
    ensures -0x20_0000 <= e < 0x20_0000 ==> Signed(d, 0x40_0000) == e
  {
    SameBytes(d, n);
    if -0x20_0000 <= e < 0x20_0000 { CentreFar(e); }
  }

  lemma SameBytes(d: int, n: int)
    ensures Signed(d + n * W64, 0x40_0000) == Signed(d, 0x40_0000)
  {
    var k := n * 0x400_0000_0000;
    assert n * W64 == k * 0x40_0000;
    ModShift(d, k, 0x40_0000);
  }

  // -------------------------------------------- from the source to the jump

  lemma AlignedTarget(target: u64)
    ensures And(target, 3) == target % 4
  {
    assert Pow2(2) == 4;
    AndLowMask(target, 2);
  }

  lemma SlotAt(params: seq<Param>, args: seq<Arg>, names: Names, own: u64, slots: seq<Slot>, k: nat)
    requires ConsumeAll(params, args, names, own) == Ok(slots) && k < |params| && k < |args|
    ensures |slots| == |params| && Consume(params[k], Some(args[k]), names, own) == Ok(slots[k])
    decreases k
  {
    var rest := ConsumeAll(params[1..], args[1..], names, own).value;
    assert slots[1..] == rest;
    if k > 0 {
      SlotAt(params[1..], args[1..], names, own, rest, k - 1);
      assert slots[k] == rest[k - 1];
    } else {
      ConsumedLength(params, args, names, own);
    }
  }

  lemma {:induction false} ConsumedLength(params: seq<Param>, args: seq<Arg>, names: Names, own: u64)
    requires ConsumeAll(params, args, names, own).Ok?
    ensures |ConsumeAll(params, args, names, own).value| == |params|
  {
    if params != [] { ConsumedLength(params[1..], if args == [] then [] else args[1..], names, own); }
  }

  /** A relative operand: the offset in instructions, cut to its field. */
  lemma RelativeField(ty: ParamType, v: u64, own: u64, m: int)
    requires (ty == PRel(22) && m == 0x40_0000) || (ty == PRel(13) && m == 0x2000)
    ensures ToField(ty, v, own) ==
            if v % 4 != 0 then Err(Unaligned) else Ok(CutOffset(own, v, m))
  {
    AlignedTarget(v);
    Pow2Values();
  }

  lemma ByteField(v: u64, own: u64)
    ensures ToField(PByteRel(22), v, own) == Ok(Wrap(Signed(Wrap(v - Wrap(own + 4)), 0x40_0000)))
  {
    Pow2Values();
  }

  // -------------------------------------------------- running the offset

  lemma LandsOn(s: State, dest: u64)
    requires dest % 4 == 0
    ensures After(JumpTo(s, dest)) == Next(s.(ip := dest))
    ensures After(CallTo(s, dest)) == Next(s.(ip := dest, regs := s.regs[LR := Wrap(s.ip + 4)]))
  {
    WrapSum(dest as int - 4, 4);
  }

  lemma AlignedDestination(s: State, c: int)
    requires s.ip % 4 == 0
    ensures Wrap(s.ip + 4 + 4 * c) % 4 == 0
  {
    AlignedBack(s.ip + 4 + 4 * c);
    MultipleOfFour(s.ip, c);
  }

  lemma MultipleOfFour(a: int, c: int)
    requires a % 4 == 0
    ensures (a + 4 + 4 * c) % 4 == 0
  {
  }

  lemma RunJump(dec: Machine.Decoder, s: State, cond: Option<Condition>, c: rel22) returns (t: State)
    requires AtInstr(dec, s, Jmpr(cond, JumpRel(c))) && s.ip % 4 == 0
    ensures Step(dec, s) == Next(t)
    ensures t == s.(ip := if Taken(cond, s.flags) then Wrap(s.ip + 4 + 4 * c) else Wrap(s.ip + 4))
  {
    assert Step(dec, s) == After(if Taken(cond, s.flags) then JumpTo(s, Wrap(s.ip + 4 + 4 * c)) else Done(s)) by {
      StepAt(dec, s, Jmpr(cond, JumpRel(c)));
    }
    AlignedDestination(s, c);
    LandsOn(s, Wrap(s.ip + 4 + 4 * c));
    t := s.(ip := if Taken(cond, s.flags) then Wrap(s.ip + 4 + 4 * c) else Wrap(s.ip + 4));
  }

  lemma RunCall(dec: Machine.Decoder, s: State, cond: Option<Condition>, c: rel22) returns (t: State)
    requires AtInstr(dec, s, Callr(cond, JumpRel(c))) && s.ip % 4 == 0
    ensures Step(dec, s) == Next(t)
    ensures t == if Taken(cond, s.flags) then s.(ip := Wrap(s.ip + 4 + 4 * c), regs := s.regs[LR := Wrap(s.ip + 4)])
                 else s.(ip := Wrap(s.ip + 4))
  {
    assert Step(dec, s) == After(if Taken(cond, s.flags) then CallTo(s, Wrap(s.ip + 4 + 4 * c)) else Done(s)) by {
      StepAt(dec, s, Callr(cond, JumpRel(c)));
    }
    AlignedDestination(s, c);
    LandsOn(s, Wrap(s.ip + 4 + 4 * c));
    t := if Taken(cond, s.flags) then s.(ip := Wrap(s.ip + 4 + 4 * c), regs := s.regs[LR := Wrap(s.ip + 4)])
         else s.(ip := Wrap(s.ip + 4));
  }

  lemma RunBranch(dec: Machine.Decoder, s: State, cond: Condition, size: Size, c: rel13, x: Reg, y: Reg)
          returns (t: State)
    requires AtInstr(dec, s, Cjmpr(cond, size, BranchRel(c), x, y)) && s.ip % 4 == 0
    ensures Step(dec, s) == Next(t)
    ensures t == s.(ip := if Compare(s, cond, size, x, y, false) then Wrap(s.ip + 4 + 4 * c) else Wrap(s.ip + 4))
  {
    var holds := Compare(s, cond, size, x, y, false);
    assert Step(dec, s) == After(if holds then JumpTo(s, Wrap(s.ip + 4 + 4 * c)) else Done(s)) by {
      StepAt(dec, s, Cjmpr(cond, size, BranchRel(c), x, y));
    }
    AlignedDestination(s, c);
    LandsOn(s, Wrap(s.ip + 4 + 4 * c));
    t := s.(ip := if holds then Wrap(s.ip + 4 + 4 * c) else Wrap(s.ip + 4));
  }

  lemma RunLdr(dec: Machine.Decoder, s: State, d: Reg, c: rel22) returns (t: State)
    requires AtInstr(dec, s, Ldr(d, c))
    ensures Step(dec, s) == Next(t) && t == s.(ip := Wrap(s.ip + 4), regs := s.regs[d := Wrap(s.ip + 4 + c)])
  {
    StepAt(dec, s, Ldr(d, c));
    t := s.(ip := Wrap(s.ip + 4), regs := s.regs[d := Wrap(s.ip + 4 + c)]);
  }

  // ----------------------------------------------------------- the theorems

  /** The machine stands at `own`, where the word assembled for src is stored. */
  ghost predicate Standing(src: Source, names: Names, own: u64, s: State) {
    && s.ip == own && Fits(s.mem, own, 4)
    && Assemble(src, names, own) == Ok(FetchWord(s))
  }

  /** The word at `own` means to the emulator what src, with operands b, means to its author.
      Proofs that only pass this on need not look inside: it opens by Opened. */
  ghost predicate Understood(dec: Machine.Decoder, src: Source, names: Names, own: u64, b: Bound, s: State) {
    forall x {:trigger Opened(x)} :: Opened(x) ==>
      && s.ip == own && Resolve(src, names, own) == Ok(b) && Conditioned(src.row, b)
      && AtInstr(dec, s, Meant(src.row, b))
  }

  /** Assembled words are understood. */
  lemma StandingAt(src: Source, names: Names, own: u64, s: State) returns (b: Bound)
    requires Standing(src, names, own, s)
    ensures Understood(D.Decode, src, names, own, b, s) && Resolve(src, names, own) == Ok(b)
  {
    b := AssembledMeans(src, names, own);
  }

  /** The target operand of a relative jump, and the offset the emulator will see. */
  lemma FarTarget(src: Source, names: Names, own: u64, b: Bound) returns (target: u64)
    requires src.row.RJmpr? || src.row.RCallr?
    requires |src.args| == 1 && src.args[0].ImmArg? && Resolve(src, names, own) == Ok(b)
    ensures Eval(src.args[0].e, names, own) == Ok(target) && target % 4 == 0
    ensures b.cond == src.cond && !IsReg(b, 0)
    ensures FarAt(b, 0) == OffsetField(own, target, 0x40_0000)
  {
    OneRelative(src.row);
    var slots := ConsumeAll(Params(src.row), src.args, names, own).value;
    SlotAt(Params(src.row), src.args, names, own, slots, 0);
    target := Eval(src.args[0].e, names, own).value;
    RelativeField(PRel(22), target, own, 0x40_0000);
  }

  lemma OneRelative(r: Row)
    requires r.RJmpr? || r.RCallr?
    ensures Params(r) == [Param('a', PRel(22), false)] && ConditionModifier(r).Optional? && SizeModifier(r).Absent?
  {
  }

  lemma FarMeant(r: Row, b: Bound)
    requires (r.RJmpr? || r.RCallr?) && !IsReg(b, 0)
    ensures Conditioned(r, b)
    ensures Meant(r, b) == if r.RJmpr? then Jmpr(b.cond, JumpRel(FarAt(b, 0))) else Callr(b.cond, JumpRel(FarAt(b, 0)))
  {
  }

  /** What the emulator finds where a relative jump or call was assembled. */
  lemma FieldHits(own: u64, target: u64, m: int, c: int)
    requires own % 4 == 0 && target % 4 == 0 && (m == 0x2000 || m == 0x40_0000) && c == OffsetField(own, target, m)
    ensures ExactWithin(own, target, 2 * m, Wrap(own + 4 + 4 * c))
  {
    OffsetReaches(own, target, m);
  }

  lemma FarField(names: Names, own: u64, src: Source, b: Bound) returns (target: u64, c: rel22)
    requires src.row.RJmpr? || src.row.RCallr?
    requires |src.args| == 1 && src.args[0].ImmArg? && own % 4 == 0 && Resolve(src, names, own) == Ok(b)
    ensures Eval(src.args[0].e, names, own) == Ok(target)
    ensures c == FarAt(b, 0) && b.cond == src.cond && !IsReg(b, 0)
    ensures ExactWithin(own, target, 0x80_0000, Wrap(own + 4 + 4 * c))
  {
    target := FarTarget(src, names, own, b);
    c := FarAt(b, 0);
    FieldHits(own, target, 0x40_0000, c);
  }

  lemma UnderstoodFar(dec: Machine.Decoder, src: Source, names: Names, own: u64, b: Bound, s: State)
          returns (target: u64, c: rel22)
    requires src.row.RJmpr? || src.row.RCallr?
    requires |src.args| == 1 && src.args[0].ImmArg? && own % 4 == 0 && Understood(dec, src, names, own, b, s)
    ensures Eval(src.args[0].e, names, own) == Ok(target)
    ensures AtInstr(dec, s, if src.row.RJmpr? then Jmpr(src.cond, JumpRel(c)) else Callr(src.cond, JumpRel(c)))
    ensures ExactWithin(own, target, 0x80_0000, Wrap(own + 4 + 4 * c))
  {
    assert Opened(0);
    target, c := FarField(names, own, src, b);
    FarMeant(src.row, b);
  }

  /** `at` is where a jump from own to the target ends: at the target, exactly when that is less
      than `limit` bytes from the next instruction, if it is taken; else at the next instruction. */
  predicate Goes(own: u64, target: u64, limit: int, taken: bool, at: u64) {
    if taken then ExactWithin(own, target, limit, at) else at == Wrap(own + 4)
  }

  lemma JumpLands(dec: Machine.Decoder, src: Source, names: Names, own: u64, b: Bound, s: State)
          returns (target: u64, t: State)
    requires src.row.RJmpr? && |src.args| == 1 && src.args[0].ImmArg? && own % 4 == 0
    requires s.ip == own && Understood(dec, src, names, own, b, s)
    ensures Eval(src.args[0].e, names, own) == Ok(target)
    ensures Step(dec, s) == Next(t) && t == s.(ip := t.ip)
    ensures Goes(own, target, 0x80_0000, Taken(src.cond, s.flags), t.ip)
  {
    var c: rel22;
    target, c := UnderstoodFar(dec, src, names, own, b, s);
    t := RunJump(dec, s, src.cond, c);
  }

  /** `jmpr target` where the machine finds what was assembled for it: with its condition met it
      goes to the target exactly when the target is within 2^23 bytes of the next instruction,
      else it goes on; nothing but the address changes. */
  lemma JumpGoesToTarget(src: Source, names: Names, own: u64, s: State) returns (target: u64, t: State)
    requires Standing(src, names, own, s) && own % 4 == 0
    requires src.row.RJmpr? && |src.args| == 1 && src.args[0].ImmArg?
    ensures Eval(src.args[0].e, names, own) == Ok(target)
    ensures Step(D.Decode, s) == Next(t) && t == s.(ip := t.ip)
    ensures Goes(own, target, 0x80_0000, Taken(src.cond, s.flags), t.ip)
  {
    var b := StandingAt(src, names, own, s);
    target, t := JumpLands(D.Decode, src, names, own, b, s);
  }

  lemma CallLands(dec: Machine.Decoder, src: Source, names: Names, own: u64, b: Bound, s: State)
          returns (target: u64, t: State)
    requires src.row.RCallr? && |src.args| == 1 && src.args[0].ImmArg? && own % 4 == 0
    requires s.ip == own && Understood(dec, src, names, own, b, s)
    ensures Eval(src.args[0].e, names, own) == Ok(target)
    ensures Step(dec, s) == Next(t) && t == s.(ip := t.ip, regs := t.regs)
    ensures t.regs == if Taken(src.cond, s.flags) then s.regs[LR := Wrap(own + 4)] else s.regs
    ensures Goes(own, target, 0x80_0000, Taken(src.cond, s.flags), t.ip)
  {
    var c: rel22;
    target, c := UnderstoodFar(dec, src, names, own, b, s);
    t := RunCall(dec, s, src.cond, c);
  }

  /** `callr target` likewise, with the return address in the link register if it is taken. */
  lemma CallGoesToTarget(src: Source, names: Names, own: u64, s: State) returns (target: u64, t: State)
    requires Standing(src, names, own, s) && own % 4 == 0
    requires src.row.RCallr? && |src.args| == 1 && src.args[0].ImmArg?
    ensures Eval(src.args[0].e, names, own) == Ok(target)
    ensures Step(D.Decode, s) == Next(t) && t == s.(ip := t.ip, regs := t.regs)
    ensures t.regs == if Taken(src.cond, s.flags) then s.regs[LR := Wrap(own + 4)] else s.regs
    ensures Goes(own, target, 0x80_0000, Taken(src.cond, s.flags), t.ip)
  {
    var b := StandingAt(src, names, own, s);
    target, t := CallLands(D.Decode, src, names, own, b, s);
  }

  /** The operands of a compare-and-jump to an expression. */
  lemma NearTarget(src: Source, names: Names, own: u64, b: Bound) returns (target: u64)
    requires src.row.RCjmpr? && |src.args| == 3 && src.args[0].ImmArg? && src.args[1].RegArg? && src.args[2].RegArg?
    requires Resolve(src, names, own) == Ok(b)
    ensures Eval(src.args[0].e, names, own) == Ok(target) && target % 4 == 0
    ensures b.cond == src.cond && src.cond.Some? && !IsReg(b, 0)
    ensures RegAt(b, 1) == src.args[1].r.id && RegAt(b, 2) == src.args[2].r.id
    ensures NearAt(b, 0) == OffsetField(own, target, 0x2000)
  {
    BranchParams();
    var slots := ConsumeAll(Params(RCjmpr), src.args, names, own).value;
    SlotAt(Params(RCjmpr), src.args, names, own, slots, 0);
    SlotAt(Params(RCjmpr), src.args, names, own, slots, 1);
    SlotAt(Params(RCjmpr), src.args, names, own, slots, 2);
    target := Eval(src.args[0].e, names, own).value;
    RelativeField(PRel(13), target, own, 0x2000);
  }

  lemma BranchParams()
    ensures Params(RCjmpr) == [Param('a', PRel(13), false), Param('b', PReg, false), Param('C', PReg, false)]
    ensures ConditionModifier(RCjmpr).Required?
  {
  }

  lemma NearField(names: Names, own: u64, src: Source, b: Bound) returns (target: u64, c: rel13)
    requires src.row.RCjmpr? && |src.args| == 3 && src.args[0].ImmArg? && src.args[1].RegArg? && src.args[2].RegArg?
    requires own % 4 == 0 && Resolve(src, names, own) == Ok(b)
    ensures Eval(src.args[0].e, names, own) == Ok(target) && src.cond.Some? && b.cond == src.cond && !IsReg(b, 0)
    ensures c == NearAt(b, 0) && RegAt(b, 1) == src.args[1].r.id && RegAt(b, 2) == src.args[2].r.id
    ensures ExactWithin(own, target, 0x4000, Wrap(own + 4 + 4 * c))
  {
    target := NearTarget(src, names, own, b);
    c := NearAt(b, 0);
    FieldHits(own, target, 0x2000, c);
  }

  lemma NearMeant(b: Bound)
    requires !IsReg(b, 0) && b.cond.Some?
    ensures Conditioned(RCjmpr, b)
    ensures Meant(RCjmpr, b) == Cjmpr(b.cond.value, b.s, BranchRel(NearAt(b, 0)), RegAt(b, 1), RegAt(b, 2))
  {
  }

  lemma UnderstoodBranch(dec: Machine.Decoder, src: Source, names: Names, own: u64, b: Bound, s: State)
          returns (target: u64, c: rel13)
    requires src.row.RCjmpr? && |src.args| == 3 && src.args[0].ImmArg? && src.args[1].RegArg? && src.args[2].RegArg?
    requires own % 4 == 0 && Understood(dec, src, names, own, b, s)
    ensures Eval(src.args[0].e, names, own) == Ok(target) && src.cond.Some?
    ensures AtInstr(dec, s, Cjmpr(src.cond.value, b.s, BranchRel(c), src.args[1].r.id, src.args[2].r.id))
    ensures ExactWithin(own, target, 0x4000, Wrap(own + 4 + 4 * c))
  {
    assert Opened(0);
    target, c := NearField(names, own, src, b);
    NearMeant(b);
  }

  lemma BranchLands(dec: Machine.Decoder, src: Source, names: Names, own: u64, b: Bound, s: State)
          returns (target: u64, t: State)
    requires src.row.RCjmpr? && |src.args| == 3 && src.args[0].ImmArg? && src.args[1].RegArg? && src.args[2].RegArg?
    requires s.ip == own && own % 4 == 0 && Understood(dec, src, names, own, b, s)
    ensures Eval(src.args[0].e, names, own) == Ok(target) && src.cond.Some?
    ensures Step(dec, s) == Next(t) && t == s.(ip := t.ip)
    ensures Goes(own, target, 0x4000, Compare(s, src.cond.value, b.s, src.args[1].r.id, src.args[2].r.id, false), t.ip)
  {
    var c: rel13;
    target, c := UnderstoodBranch(dec, src, names, own, b, s);
    t := RunBranch(dec, s, src.cond.value, b.s, c, src.args[1].r.id, src.args[2].r.id);
  }

  /** `cjmpr target, a, b`: when its comparison, at the size its registers declare, holds, it goes
      to the target exactly when that is within 2^14 bytes of the next instruction, else it goes on. */
  lemma BranchGoesToTarget(src: Source, names: Names, own: u64, s: State) returns (target: u64, size: Size, t: State)
    requires Standing(src, names, own, s) && own % 4 == 0
    requires src.row.RCjmpr? && |src.args| == 3 && src.args[0].ImmArg? && src.args[1].RegArg? && src.args[2].RegArg?
    ensures Eval(src.args[0].e, names, own) == Ok(target) && src.cond.Some?
    ensures Resolve(src, names, own).Ok? && size == Resolve(src, names, own).value.s
    ensures Step(D.Decode, s) == Next(t) && t == s.(ip := t.ip)
    ensures Goes(own, target, 0x4000, Compare(s, src.cond.value, size, src.args[1].r.id, src.args[2].r.id, false), t.ip)
  {
    var b := StandingAt(src, names, own, s);
    size := b.s;
    target, t := BranchLands(D.Decode, src, names, own, b, s);
  }

  lemma LdrParams()
    ensures Params(RLdr) == [Param('d', PReg, false), Param('a', PByteRel(22), false)]
  {
  }

  /** The operands of an `ldr`. */
  lemma ByteTarget(src: Source, names: Names, own: u64, b: Bound) returns (target: u64)
    requires src.row.RLdr? && |src.args| == 2 && src.args[0].RegArg? && src.args[1].ImmArg?
    requires Resolve(src, names, own) == Ok(b)
    ensures Eval(src.args[1].e, names, own) == Ok(target) && RegAt(b, 0) == src.args[0].r.id
    ensures FarAt(b, 1) == Signed(Wrap(Signed(Wrap(target - Wrap(own + 4)), 0x40_0000)), 0x40_0000)
  {
    LdrParams();
    var slots := ConsumeAll(Params(RLdr), src.args, names, own).value;
    SlotAt(Params(RLdr), src.args, names, own, slots, 0);
    SlotAt(Params(RLdr), src.args, names, own, slots, 1);
    target := Eval(src.args[1].e, names, own).value;
    ByteField(target, own);
  }

  lemma UnderstoodLdr(dec: Machine.Decoder, src: Source, names: Names, own: u64, b: Bound, s: State)
          returns (target: u64, c: rel22)
    requires src.row.RLdr? && |src.args| == 2 && src.args[0].RegArg? && src.args[1].ImmArg?
    requires Understood(dec, src, names, own, b, s)
    ensures Eval(src.args[1].e, names, own) == Ok(target)
    ensures AtInstr(dec, s, Ldr(src.args[0].r.id, c))
    ensures ExactWithin(own, target, 0x20_0000, Wrap(own + 4 + c))
  {
    assert Opened(0);
    target := ByteTarget(src, names, own, b);
    c := FarAt(b, 1);
    ByteOffsetReaches(own, target);
  }

  lemma LdrLands(dec: Machine.Decoder, src: Source, names: Names, own: u64, b: Bound, s: State)
          returns (target: u64, t: State)
    requires src.row.RLdr? && |src.args| == 2 && src.args[0].RegArg? && src.args[1].ImmArg?
    requires s.ip == own && Understood(dec, src, names, own, b, s)
    ensures Eval(src.args[1].e, names, own) == Ok(target)
    ensures Step(dec, s) == Next(t) && t
            == s.(ip := Wrap(own + 4), regs := s.regs[src.args[0].r.id := t.regs[src.args[0].r.id]])
    ensures ExactWithin(own, target, 0x20_0000, t.regs[src.args[0].r.id])
  {
    var c: rel22;
    target, c := UnderstoodLdr(dec, src, names, own, b, s);
    t := RunLdr(dec, s, src.args[0].r.id, c);
  }

  /** `ldr d, target` puts the target in d, aligned or not, exactly when it is within 2^21 bytes
      of the next instruction; nothing else changes. */
  lemma LdrLoadsTarget(src: Source, names: Names, own: u64, s: State) returns (target: u64, t: State)
    requires Standing(src, names, own, s)
    requires src.row.RLdr? && |src.args| == 2 && src.args[0].RegArg? && src.args[1].ImmArg?
    ensures Eval(src.args[1].e, names, own) == Ok(target)
    ensures Step(D.Decode, s) == Next(t)
            && t == s.(ip := Wrap(own + 4), regs := s.regs[src.args[0].r.id := t.regs[src.args[0].r.id]])
    ensures ExactWithin(own, target, 0x20_0000, t.regs[src.args[0].r.id])
  {
    var b := StandingAt(src, names, own, s);
    target, t := LdrLands(D.Decode, src, names, own, b, s);
  }
}
