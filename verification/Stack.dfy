/**
 The stack instructions refine a list: pushes put entries of any width in front, pops take
 them off, and memory from the stack pointer upward is a picture of the list.
 */
module Stack {
  import opened Bits
  import opened Memory
  import opened Isa
  import opened Machine

  /** One pushed value of a given width. */
  datatype Item = Item(size: Size, value: nat)

  datatype Op =
    | Push(size: Size, src: Option<Reg>)
    | PushPair(size: Size, src1: Option<Reg>, src2: Option<Reg>)
    | Pop(size: Size, dst: Option<Reg>)
    | PopPair(size: Size, dst1: Option<Reg>, dst2: Option<Reg>)

  function Height(st: seq<Item>): nat {
    if st == [] then 0 else ByteSize(st[0].size) + Height(st[1..])
  }

  /** Memory from sp upward holds the items, the first at sp itself. */
  ghost predicate Pictures(m: Memory, sp: nat, st: seq<Item>)
    decreases |st|
  {
    st == [] ||
    (Fits(m, sp, ByteSize(st[0].size)) && ReadLe(m, sp, ByteSize(st[0].size)) == st[0].value
     && Pictures(m, sp + ByteSize(st[0].size), st[1..]))
  }

  // ------------------------------------------------------ the list machine

  /** Registers and a list, without memory. */
  datatype Abstract = Abstract(regs: Regs, stack: seq<Item>)

  /** One operation on the list: None when a push would wrap the stack pointer or leave
      memory of the given size, or a pop does not match what is on top. */
  function Abstractly(a: Abstract, op: Op, limit: nat): Option<Abstract> {
    var n, sp := ByteSize(op.size), a.regs[SP];
    match op
    case Push(size, src) =>
      if sp < n || sp > limit then None
      else Some(Abstract(a.regs[SP := sp - n], [Item(size, LowOpt(a.regs, src, size))] + a.stack))
    case PushPair(size, src1, src2) =>
      if sp < 2 * n || sp > limit then None
      else Some(Abstract(a.regs[SP := sp - 2 * n],
                         [Item(size, LowOpt(a.regs, src1, size)), Item(size, LowOpt(a.regs, src2, size))] + a.stack))
    case Pop(size, dst) =>
      if |a.stack| < 1 || a.stack[0].size != size || sp + n >= W64 then None
      else Some(Abstract(SetOpt(a.regs, dst, size, a.stack[0].value)[SP := sp + n], a.stack[1..]))
    case PopPair(size, dst1, dst2) =>
      if |a.stack| < 2 || a.stack[0].size != size || a.stack[1].size != size || sp + 2 * n >= W64 then None
      else Some(Abstract(SetOpt(SetOpt(a.regs, dst1, size, a.stack[0].value), dst2, size,
          a.stack[1].value)[SP := sp + 2 * n],
                         a.stack[2..]))
  }

  function AbstractRun(a: Abstract, ops: seq<Op>, limit: nat): Option<Abstract>
    decreases |ops|
  {
    if ops == [] then Some(a)
    else match Abstractly(a, ops[0], limit)
      case Some(b) => AbstractRun(b, ops[1..], limit)
      case None => None
  }

  // ---------------------------------------------------- the real machine

  function Concretely(s: State, op: Op): Effect {
    match op
    case Push(size, src) => ExecPushs(s, size, src)
    case PushPair(size, src1, src2) => ExecPushp(s, size, src1, src2)
    case Pop(size, dst) => ExecPops(s, size, dst)
    case PopPair(size, dst1, dst2) => ExecPopp(s, size, dst1, dst2)
  }

  function Instruction(op: Op): Instr {
    match op
    case Push(size, src) => Pushs(size, src)
    case PushPair(size, src1, src2) => Pushp(size, src1, src2)
    case Pop(size, dst) => Pops(size, dst)
    case PopPair(size, dst1, dst2) => Popp(size, dst1, dst2)
  }

  /** Each operation is the instruction of its name. */
  lemma StackInstruction(s: State, op: Op)
    ensures Exec(s, Instruction(op)) == Concretely(s, op)
  {
  }

  function ConcreteRun(s: State, ops: seq<Op>): Effect
    decreases |ops|
  {
    if ops == [] then Done(s)
    else match Concretely(s, ops[0])
      case Done(t) => ConcreteRun(t, ops[1..])
      case e => e
  }

  // ----------------------------------------------------------- refinement

  lemma {:induction false} PicturesFrame(m: Memory, m': Memory, sp: nat, st: seq<Item>)
    requires Pictures(m, sp, st) && SameWithin(m, m', sp, sp + Height(st))
    ensures Pictures(m', sp, st)
    decreases |st|
  {
    if st != [] {
      ReadSame(m, m', sp, ByteSize(st[0].size));
      PicturesFrame(m, m', sp + ByteSize(st[0].size), st[1..]);
    }
  }

  lemma LowFits(regs: Regs, src: Option<Reg>, size: Size)
    ensures LowOpt(regs, src, size) < Modulus(size) == Pow2(8 * ByteSize(size))
  {
    ModulusIsPow2(size);
  }

  /** Writing below a picture leaves it alone and puts the value in front of it. */
  lemma PushedPicture(m: Memory, sp: nat, st: seq<Item>, size: Size, v: nat)
    requires Pictures(m, sp + ByteSize(size), st) && sp + ByteSize(size) <= |m| && v < Modulus(size)
    ensures Pictures(WriteLe(m, sp, ByteSize(size), v), sp, [Item(size, v)] + st)
    ensures SameOutside(m, WriteLe(m, sp, ByteSize(size), v), sp, sp + ByteSize(size))
  {
    var n := ByteSize(size);
    var m' := WriteLe(m, sp, n, v);
    WriteFrame(m, sp, n, v);
    ReadBack(m, sp, n, v);
    ModulusIsPow2(size);
    SmallValue(v, Modulus(size));
    PicturesFrame(m, m', sp + n, st);
    assert ([Item(size, v)] + st)[1..] == st;
  }

  lemma SmallValue(v: nat, m: int)
    requires v < m
    ensures v % m == v
  {
  }

  /** The concrete state stands for the abstract one. */
  ghost predicate Stands(s: State, a: Abstract) {
    s.regs == a.regs && Pictures(s.mem, s.regs[SP], a.stack)
  }

  lemma WrapDown(sp: u64, n: nat)
    requires n <= sp
    ensures Wrap(sp - n) == sp - n
  {
  }

  lemma WrapUp(sp: u64, n: nat)
    requires sp + n < W64
    ensures Wrap(sp + n) == sp + n
  {
  }

  lemma PushRefines(s: State, a: Abstract, size: Size, src: Option<Reg>, b: Abstract) returns (t: State)
    requires Stands(s, a) && Abstractly(a, Push(size, src), |s.mem|) == Some(b)
    ensures ExecPushs(s, size, src) == Done(t) && Stands(t, b) && |t.mem| == |s.mem|
    ensures SameOutside(s.mem, t.mem, b.regs[SP], a.regs[SP])
  {
    var n, sp := ByteSize(size), s.regs[SP];
    WrapDown(sp, n);
    LowFits(s.regs, src, size);
    var v := LowOpt(s.regs, src, size);
    PushedPicture(s.mem, sp - n, a.stack, size, v);
    t := s.(mem := WriteLe(s.mem, sp - n, n, v), regs := s.regs[SP := sp - n]);
  }

  /** Two values pushed together: the second lies above the first. */
  lemma PushedPair(m: Memory, sp: nat, st: seq<Item>, size: Size, v1: nat, v2: nat)
    requires Pictures(m, sp + 2 * ByteSize(size), st) && sp + 2 * ByteSize(size) <= |m|
    requires v1 < Modulus(size) && v2 < Modulus(size)
    ensures var m' := WriteLe(WriteLe(m, sp, ByteSize(size), v1), sp + ByteSize(size), ByteSize(size), v2);
            Pictures(m', sp, [Item(size, v1), Item(size, v2)] + st) && SameOutside(m, m', sp, sp + 2 * ByteSize(size))
  {
    var n := ByteSize(size);
    PushedPicture(m, sp + n, st, size, v2);
    PushedPicture(WriteLe(m, sp + n, n, v2), sp, [Item(size, v2)] + st, size, v1);
    WritesCommute(m, sp, n, v1, v2);
    assert [Item(size, v1)] + ([Item(size, v2)] + st) == [Item(size, v1), Item(size, v2)] + st;
  }

  lemma PushPairRefines(s: State, a: Abstract, size: Size, src1: Option<Reg>, src2: Option<Reg>, b: Abstract)
          returns (t: State)
    requires Stands(s, a) && Abstractly(a, PushPair(size, src1, src2), |s.mem|) == Some(b)
    ensures ExecPushp(s, size, src1, src2) == Done(t) && Stands(t, b) && |t.mem| == |s.mem|
    ensures SameOutside(s.mem, t.mem, b.regs[SP], a.regs[SP])
  {
    var n, sp := ByteSize(size), s.regs[SP];
    WrapDown(sp, 2 * n);
    LowFits(s.regs, src1, size);
    LowFits(s.regs, src2, size);
    var v1, v2 := LowOpt(s.regs, src1, size), LowOpt(s.regs, src2, size);
    PushedPair(s.mem, sp - 2 * n, a.stack, size, v1, v2);
    t := s.(mem := WriteLe(WriteLe(s.mem, sp - 2 * n, n, v1), sp - n, n, v2), regs := s.regs[SP := sp - 2 * n]);
  }

  /** The two writes of a pair do not overlap, so their order does not matter. */
  lemma WritesCommute(m: Memory, p: nat, n: nat, v1: nat, v2: nat)
    requires p + 2 * n <= |m|
    ensures WriteLe(WriteLe(m, p, n, v1), p + n, n, v2) == WriteLe(WriteLe(m, p + n, n, v2), p, n, v1)
  {
    var a, b := WriteLe(WriteLe(m, p, n, v1), p + n, n, v2), WriteLe(WriteLe(m, p + n, n, v2), p, n, v1);
    WriteFrame(m, p, n, v1);
    WriteFrame(WriteLe(m, p, n, v1), p + n, n, v2);
    WriteFrame(m, p + n, n, v2);
    WriteFrame(WriteLe(m, p + n, n, v2), p, n, v1);
    WriteLocal(m, WriteLe(m, p + n, n, v2), p, n, v1);
    WriteLocal(m, WriteLe(m, p, n, v1), p + n, n, v2);
    forall i | 0 <= i < |m| ensures a[i] == b[i] { }
  }

  /** What a write leaves in its own bytes does not depend on the others. */
  lemma {:induction false} WriteLocal(m: seq<byte>, m': seq<byte>, a: nat, n: nat, v: nat)
    requires |m| == |m'| && Fits(m, a, n)
    ensures forall i :: a <= i < a + n ==> WriteLe(m, a, n, v)[i] == WriteLe(m', a, n, v)[i]
    decreases n
  {
    if n > 0 {
      WriteLocal(m[a := v % 0x100], m'[a := v % 0x100], a + 1, n - 1, v / 0x100);
      WriteFrame(m[a := v % 0x100], a + 1, n - 1, v / 0x100);
      WriteFrame(m'[a := v % 0x100], a + 1, n - 1, v / 0x100);
    }
  }

  lemma PopRefines(s: State, a: Abstract, size: Size, dst: Option<Reg>, b: Abstract) returns (t: State)
    requires Stands(s, a) && Abstractly(a, Pop(size, dst), |s.mem|) == Some(b)
    ensures ExecPops(s, size, dst) == Done(t) && Stands(t, b) && t.mem == s.mem
  {
    WrapUp(s.regs[SP], ByteSize(size));
    t := s.(regs := b.regs);
  }

  lemma PopPairRefines(s: State, a: Abstract, size: Size, dst1: Option<Reg>, dst2: Option<Reg>, b: Abstract)
          returns (t: State)
    requires Stands(s, a) && Abstractly(a, PopPair(size, dst1, dst2), |s.mem|) == Some(b)
    ensures ExecPopp(s, size, dst1, dst2) == Done(t) && Stands(t, b) && t.mem == s.mem
  {
    var n, sp := ByteSize(size), s.regs[SP];
    WrapUp(sp, 2 * n);
    assert Pictures(s.mem, sp + n, a.stack[1..]);
    assert a.stack[1..][1..] == a.stack[2..] && a.stack[1..][0] == a.stack[1];
    t := s.(regs := b.regs);
  }

  lemma OpRefines(s: State, a: Abstract, op: Op, b: Abstract) returns (t: State)
    requires Stands(s, a) && Abstractly(a, op, |s.mem|) == Some(b)
    ensures Concretely(s, op) == Done(t) && Stands(t, b) && |t.mem| == |s.mem|
    ensures SameOutside(s.mem, t.mem, b.regs[SP], a.regs[SP])
  {
    match op
    case Push(size, src) => t := PushRefines(s, a, size, src, b);
    case PushPair(size, src1, src2) => t := PushPairRefines(s, a, size, src1, src2, b);
    case Pop(size, dst) => t := PopRefines(s, a, size, dst, b);
    case PopPair(size, dst1, dst2) => t := PopPairRefines(s, a, size, dst1, dst2, b);
  }

  lemma HeightOfFront(x: Item, y: Item, st: seq<Item>)
    ensures Height([x] + st) == ByteSize(x.size) + Height(st)
    ensures Height([x, y] + st) == ByteSize(x.size) + ByteSize(y.size) + Height(st)
  {
    assert ([x] + st)[1..] == st;
    assert ([x, y] + st)[1..] == [y] + st && ([y] + st)[1..] == st;
  }

  /** Every operation moves the stack pointer by exactly what it adds to or takes off the list. */
  lemma PointerFollowsHeight(a: Abstract, op: Op, limit: nat, b: Abstract)
    requires Abstractly(a, op, limit) == Some(b)
    ensures b.regs[SP] + Height(b.stack) == a.regs[SP] + Height(a.stack)
  {
    match op
    case Push(size, src) => HeightOfFront(b.stack[0], b.stack[0], a.stack);
    case PushPair(size, _, _) => HeightOfFront(b.stack[0], b.stack[1], a.stack);
    case Pop(_, _) =>
    case PopPair(_, _, _) => assert a.stack[1..][1..] == a.stack[2..];
  }

  /** The lowest stack pointer of a run. */
  function Lowest(a: Abstract, ops: seq<Op>, limit: nat): nat
    decreases |ops|
  {
    if ops == [] then a.regs[SP]
    else match Abstractly(a, ops[0], limit)
      case Some(b) => if a.regs[SP] < Lowest(b, ops[1..], limit) then a.regs[SP] else Lowest(b, ops[1..], limit)
      case None => a.regs[SP]
  }

  /** Refinement of whole runs: whenever the list machine can run a sequence of operations of
      any widths, the real machine runs it too, ends with the same registers and with its
      memory picturing the same list, and has changed no byte outside the stack. */
  lemma {:induction false} RunRefines(s: State, a: Abstract, ops: seq<Op>, b: Abstract) returns (t: State)
    requires Stands(s, a) && AbstractRun(a, ops, |s.mem|) == Some(b)
    ensures ConcreteRun(s, ops) == Done(t) && Stands(t, b)
    ensures t.regs[SP] + Height(b.stack) == s.regs[SP] + Height(a.stack)
    ensures SameOutside(s.mem, t.mem, Lowest(a, ops, |s.mem|), s.regs[SP] + Height(a.stack))
    decreases |ops|
  {
    if ops == [] {
      t := s;
    } else {
      var c := Abstractly(a, ops[0], |s.mem|).value;
      var u := OpRefines(s, a, ops[0], c);
      PointerFollowsHeight(a, ops[0], |s.mem|, c);
      t := RunRefines(u, c, ops[1..], b);
      LowestBelow(c, ops[1..], |s.mem|);
    }
  }

  lemma LowestBelow(a: Abstract, ops: seq<Op>, limit: nat)
    ensures Lowest(a, ops, limit) <= a.regs[SP]
  {
  }

  // ------------------------------------------------------ well-nested runs

  /** Pushes and pops like brackets. */
  datatype Nest = Empty | Around(push: Op, inner: Nest, pop: Op, rest: Nest)

  predicate Matched(push: Op, pop: Op) {
    (push.Push? && pop.Pop? && push.size == pop.size) || (push.PushPair? && pop.PopPair? && push.size == pop.size)
  }

  predicate WellNested(n: Nest) {
    n.Empty? || (Matched(n.push, n.pop) && WellNested(n.inner) && WellNested(n.rest))
  }

  function Flatten(n: Nest): seq<Op> {
    if n.Empty? then [] else [n.push] + Flatten(n.inner) + [n.pop] + Flatten(n.rest)
  }

  function Bytes(op: Op): nat {
    ByteSize(op.size) * (if op.Push? || op.Pop? then 1 else 2)
  }

  /** The most bytes of stack a nest uses. */
  function Depth(n: Nest): nat {
    if n.Empty? then 0
    else if Bytes(n.push) + Depth(n.inner) > Depth(n.rest) then Bytes(n.push) + Depth(n.inner) else Depth(n.rest)
  }

  lemma {:induction false} RunAppend(a: Abstract, xs: seq<Op>, ys: seq<Op>, limit: nat)
    requires AbstractRun(a, xs, limit).Some?
    ensures AbstractRun(a, xs + ys, limit) == AbstractRun(AbstractRun(a, xs, limit).value, ys, limit)
    ensures AbstractRun(AbstractRun(a, xs, limit).value, ys, limit).Some? ==>
              Lowest(a, xs + ys, limit)
                  == Least(Lowest(a, xs, limit), Lowest(AbstractRun(a, xs, limit).value, ys, limit))
    decreases |xs|
  {
    if xs == [] {
      assert xs + ys == ys;
      LowestBelow(a, ys, limit);
    } else {
      var b := Abstractly(a, xs[0], limit).value;
      assert (xs + ys)[0] == xs[0] && (xs + ys)[1..] == xs[1..] + ys;
      RunAppend(b, xs[1..], ys, limit);
    }
  }

  function Least(x: nat, y: nat): nat {
    if x < y then x else y
  }

  lemma OneOp(a: Abstract, op: Op, limit: nat)
    ensures AbstractRun(a, [op], limit) == Abstractly(a, op, limit)
    ensures Abstractly(a, op, limit).Some?
            ==> Lowest(a, [op], limit) == Least(a.regs[SP], Abstractly(a, op, limit).value.regs[SP])
  {
    assert [op][1..] == [];
    if Abstractly(a, op, limit).Some? { assert AbstractRun(Abstractly(a, op, limit).value, [], limit)
        == Abstractly(a, op, limit); }
  }

  /** The values a push puts on the list are those its matching pop delivers. */
  function Delivered(regs: Regs, push: Op, pop: Op, saved: Regs): Regs {
    match (push, pop)
    case (Push(size, src), Pop(_, dst)) => SetOpt(regs, dst, size, LowOpt(saved, src, size))
    case (PushPair(size, src1, src2), PopPair(_, dst1, dst2)) =>
      SetOpt(SetOpt(regs, dst1, size, LowOpt(saved, src1, size)), dst2, size, LowOpt(saved, src2, size))
    case _ => regs
  }

  lemma PushThenPop(a: Abstract, push: Op, pop: Op, limit: nat, c: Abstract)
    requires Matched(push, pop) && Bytes(push) <= a.regs[SP] <= limit < W64
    ensures var b := Abstractly(a, push, limit);
            && b.Some? && b.value.regs == a.regs[SP := a.regs[SP] - Bytes(push)]
            && (c.stack == b.value.stack && c.regs[SP] == b.value.regs[SP] ==>
                Abstractly(c, pop, limit)
                    == Some(Abstract(Delivered(c.regs, push, pop, a.regs)[SP := a.regs[SP]], a.stack)))
  {
    var b := Abstractly(a, push, limit).value;
    if push.Push? { assert b.stack[1..] == a.stack; } else { assert b.stack[2..] == a.stack; }
  }

  /** What a nest does to the registers: pops deliver, in reverse order of the pushes. */
  function Nested(regs: Regs, n: Nest): Regs
    decreases n
  {
    if n.Empty? then regs
    else
      var inner := Nested(regs[SP := Wrap(regs[SP] - Bytes(n.push))], n.inner);
      Nested(Delivered(inner, n.push, n.pop, regs)[SP := regs[SP]], n.rest)
  }

  lemma {:induction false} NestedPointer(regs: Regs, n: Nest)
    ensures Nested(regs, n)[SP] == regs[SP]
    decreases n
  {
    if n.Around? {
      var inner := Nested(regs[SP := Wrap(regs[SP] - Bytes(n.push))], n.inner);
      NestedPointer(Delivered(inner, n.push, n.pop, regs)[SP := regs[SP]], n.rest);
    }
  }

  /** A well-nested sequence with room on the stack runs, leaves the list and the stack pointer
      as they were, and never goes below its depth. */
  lemma {:induction false} NestRuns(a: Abstract, n: Nest, limit: nat)
    requires WellNested(n) && Depth(n) <= a.regs[SP] <= limit < W64
    ensures AbstractRun(a, Flatten(n), limit) == Some(Abstract(Nested(a.regs, n), a.stack))
    ensures Lowest(a, Flatten(n), limit) >= a.regs[SP] - Depth(n)
    decreases n
  {
    if n.Around? {
      var b := Abstractly(a, n.push, limit);
      PushThenPop(a, n.push, n.pop, limit, a);
      WrapDown(a.regs[SP], Bytes(n.push));
      NestRuns(b.value, n.inner, limit);
      NestedPointer(b.value.regs, n.inner);
      var c := Abstract(Nested(b.value.regs, n.inner), b.value.stack);
      PushThenPop(a, n.push, n.pop, limit, c);
      var d := Abstract(Delivered(c.regs, n.push, n.pop, a.regs)[SP := a.regs[SP]], a.stack);
      NestRuns(d, n.rest, limit);
      OneOp(a, n.push, limit);
      OneOp(c, n.pop, limit);
      RunAppend(a, [n.push], Flatten(n.inner), limit);
      RunAppend(a, [n.push] + Flatten(n.inner), [n.pop], limit);
      RunAppend(a, [n.push] + Flatten(n.inner) + [n.pop], Flatten(n.rest), limit);
    }
  }

  /** Stack discipline: any well-nested sequence of pushes and pops of any widths, with room
      below the stack pointer, runs without an exception, delivers to each pop what its push
      saved, returns the stack pointer exactly, and changes memory only in that room. */
  lemma WellNestedRuns(s: State, n: Nest) returns (t: State)
    requires WellNested(n) && Depth(n) <= s.regs[SP] <= |s.mem|
    ensures ConcreteRun(s, Flatten(n)) == Done(t)
    ensures t.regs == Nested(s.regs, n) && t.regs[SP] == s.regs[SP]
    ensures SameOutside(s.mem, t.mem, s.regs[SP] - Depth(n), s.regs[SP])
  {
    var a := Abstract(s.regs, []);
    NestRuns(a, n, |s.mem|);
    NestedPointer(s.regs, n);
    t := RunRefines(s, a, Flatten(n), Abstract(Nested(s.regs, n), []));
  }

  /** A popped value arrives in its register exactly when that is not the stack pointer: there
      the increment wins. */
  lemma PopDelivers(s: State, size: Size, d: Reg, t: State)
    requires ExecPops(s, size, Some(d)) == Done(t)
    ensures d != SP ==> Low(t.regs, d, size) == ReadLe(s.mem, s.regs[SP], ByteSize(size)) % Modulus(size)
    ensures d == SP ==> t.regs[SP] == Wrap(s.regs[SP] + ByteSize(size))
  {
    SetLowParts(s.regs[d], size, ReadLe(s.mem, s.regs[SP], ByteSize(size)));
  }
}
