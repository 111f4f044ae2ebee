/** The first state of a handler: its stack, and what the exception registers tell it. */
module HandlerEntry {
  import opened Bits
  import opened Memory
  import opened Isa
  import opened Machine
  import opened Runs
  import opened Stack

  // ------------------------------------------------- what the handler is told

  /** The information word and the address a handler finds for its exception: a number in bits 2 to
      0, and above it the value of `exc`, the direction and the size of a failed access, or the
      interrupt's own information. */
  predicate Tells(e: Exception, info: u64, address: u64) {
    match e
    case Unknown => info == 0 && address == 0
    case InvalidInstruction => info == 1 && address == 0
    case Debug => info == 2 && address == 0
    case User(val) => info % 8 == 3 && info / 8 == val && address == 0
    case InvalidOperation => info == 4 && address == 0
    case InstructionLoadError => info == 5 && address == 0
    case DataLoadError(a, write, size) =>
      info % 8 == 6 && Bit(info, 3) == write && info / 16 == size && address == a
    case Interrupt(i) => info % 8 == 7 && info / 8 == i % 0x2000_0000_0000_0000 && address == 0
  }

  lemma InterruptTells(i: u64)
    ensures InterruptInfo(i) % 8 == 7 && InterruptInfo(i) / 8 == i % 0x2000_0000_0000_0000
  {
    var q, r := i / 0x2000_0000_0000_0000, i % 0x2000_0000_0000_0000;
    DivisionUnique(7 + 8 * i, W64, q, 7 + 8 * r);
  }

  lemma AccessTells(write: bool, size: u16)
    ensures var info := 6 + 8 * B(write) + 16 * size;
            info % 8 == 6 && Bit(info, 3) == write && info / 16 == size
  {
    var info := 6 + 8 * B(write) + 16 * size;
    BitOfHalf(info, 2);
    BitOfHalf(info / 2, 1);
    BitOfHalf(info / 4, 0);
    assert info / 2 / 2 / 2 == B(write) + 2 * size;
  }

  lemma InfoTells(e: Exception)
    ensures Tells(e, ExceptionInfo(e), if e.DataLoadError? then e.address else 0)
    ensures ExceptionInfo(e) % 8 == ExceptionId(e)
  {
    match e
    case Interrupt(i) => InterruptTells(i);
    case DataLoadError(_, write, size) => AccessTells(write, size);
    case _ =>
  }

  /** The number in the information word also chooses the vector, 32 bytes apart and those of PL1
      after those of PL0, and the entry of the configuration table. */
  lemma EntryTells(s: State, e: Exception) returns (t: State, number: nat)
    ensures t == TakeException(s, e) && number == t.einfo % 8 && Tells(e, t.einfo, t.eaddr)
    ensures t.ip == (s.evtable + (if s.flags.pl1 then 256 else 0) + 32 * number) % W64
    ensures StackChosen((if s.flags.pl1 then s.ectable.pl1 else s.ectable.pl0)[number], s.regs[SP], t.regs[SP])
    ensures t.elr == s.ip && t.esp == s.regs[SP] && t.eflags == s.flags
  {
    t, number := TakeException(s, e), ExceptionId(e);
    InfoTells(e);
  }

  // ------------------------------------------------------ the handler's stack

  /** A stack pointer outside the stack from base up to base + size, both ends included. */
  predicate Outside(sp: u64, base: u64, size: u64) {
    !(base <= sp <= base + size)
  }

  /** An exception taken with the pointer outside the stack its table entry asks for starts the
      handler with that whole stack below it; inside that stack, or without the request, the handler
      goes on where the interrupted program was. */
  lemma HandlerStack(s: State, e: Exception) returns (t: State, entry: Entry)
    ensures t == TakeException(s, e)
    ensures entry == (if s.flags.pl1 then s.ectable.pl1 else s.ectable.pl0)[ExceptionId(e)]
    ensures var base, size := entry.stackPointer, entry.stackSize;
            base + size < W64 ==>
              t.regs[SP] == if Bit(entry.flags, 0) && Outside(s.regs[SP], base, size) then base + size else s.regs[SP]
  {
    t := TakeException(s, e);
    entry := (if s.flags.pl1 then s.ectable.pl1 else s.ectable.pl0)[ExceptionId(e)];
    TopOfStack(entry);
  }

  lemma TopOfStack(entry: Entry)
    ensures entry.stackPointer + entry.stackSize < W64 ==>
              Wrap(entry.stackPointer + entry.stackSize) == entry.stackPointer + entry.stackSize
  {
  }

  /** What a stack operation adds to the bytes pushed. */
  function Pushes(op: Op): int {
    match op
    case Push(size, _) => ByteSize(size)
    case PushPair(size, _, _) => 2 * ByteSize(size)
    case Pop(size, _) => 0 - (ByteSize(size) as int)
    case PopPair(size, _, _) => 0 - 2 * (ByteSize(size) as int)
  }

  /** From `depth` bytes pushed, no operation goes below nothing or above `limit`. */
  predicate KeepsWithin(depth: int, ops: seq<Op>, limit: nat)
    decreases |ops|
  {
    ops == [] || (0 <= depth + Pushes(ops[0]) <= limit && KeepsWithin(depth + Pushes(ops[0]), ops[1..], limit))
  }

  lemma PushInside(s: State, op: Op, base: u64, size: u64, depth: nat) returns (t: State)
    requires base + size <= |s.mem| && s.regs[SP] == base + size - depth
    requires depth <= size && 0 <= depth + Pushes(op) <= size && (op.Push? || op.PushPair?)
    ensures Concretely(s, op) == Done(t) && t.regs[SP] == base + size - (depth + Pushes(op))
    ensures SameOutside(s.mem, t.mem, base, base + size)
  {
    var n, sp := ByteSize(op.size), s.regs[SP] - Pushes(op);
    WrapDown(s.regs[SP], Pushes(op));
    t := Concretely(s, op).s;
    match op
    case Push(size, src) =>
      WriteFrame(s.mem, sp, n, LowOpt(s.regs, src, size));
    case PushPair(size, src1, src2) =>
      WriteFrame(s.mem, sp, n, LowOpt(s.regs, src1, size));
      WriteFrame(WriteLe(s.mem, sp, n, LowOpt(s.regs, src1, size)), sp + n, n, LowOpt(s.regs, src2, size));
  }

  lemma PopInside(s: State, op: Op, base: u64, size: u64, depth: nat) returns (t: State)
    requires base + size <= |s.mem| && s.regs[SP] == base + size - depth
    requires depth <= size && 0 <= depth + Pushes(op) <= size && (op.Pop? || op.PopPair?)
    ensures Concretely(s, op) == Done(t) && t.regs[SP] == base + size - (depth + Pushes(op)) && t.mem == s.mem
  {
    WrapUp(s.regs[SP], -Pushes(op));
    t := Concretely(s, op).s;
  }

  /** With the pointer at the top of a stack in memory, operations that never have more than its size
      pushed complete, stay inside it, and change nothing else in memory. */
  lemma {:induction false} StaysOnStack(s: State, ops: seq<Op>, base: u64, size: u64, depth: nat) returns (t: State)
    requires base + size <= |s.mem| && depth <= size && s.regs[SP] == base + size - depth
    requires KeepsWithin(depth, ops, size)
    ensures ConcreteRun(s, ops) == Done(t) && base <= t.regs[SP] <= base + size
    ensures SameOutside(s.mem, t.mem, base, base + size)
    decreases |ops|
  {
    if ops == [] {
      t := s;
    } else {
      var u: State;
      if ops[0].Push? || ops[0].PushPair? { u := PushInside(s, ops[0], base, size, depth); }
          else { u := PopInside(s, ops[0], base, size, depth); }
      t := StaysOnStack(u, ops[1..], base, size, depth + Pushes(ops[0]));
    }
  }

  /** So a handler that interrupts a program outside its stack, whatever that program's pointer was,
      has all of its stack and writes nowhere else. */
  lemma HandlerStaysOnStack(dec: Decoder, s: State, ops: seq<Op>) returns (e: Exception, t: State, u: State)
    requires Traps(dec, s)
    ensures Step(dec, s) == Next(t) && Entered(s, ResumePoint(dec, s), VectorSkip(dec, s), e, t)
    ensures var entry := (if s.flags.pl1 then s.ectable.pl1 else s.ectable.pl0)[ExceptionId(e)];
            var base, size := entry.stackPointer, entry.stackSize;
            Bit(entry.flags, 0) && Outside(s.regs[SP], base, size) && base + size <= |s.mem|
                && KeepsWithin(0, ops, size) ==>
              t.regs[SP] - base == size && ConcreteRun(t, ops) == Done(u)
              && base <= u.regs[SP] <= base + size && SameOutside(s.mem, u.mem, base, base + size)
  {
    e, t := PreciseException(dec, s);
    u := t;
    var entry := (if s.flags.pl1 then s.ectable.pl1 else s.ectable.pl0)[ExceptionId(e)];
    var base, size := entry.stackPointer, entry.stackSize;
    if Bit(entry.flags, 0) && Outside(s.regs[SP], base, size) && base + size <= |s.mem| && KeepsWithin(0, ops, size) {
      FromTop(entry, s.regs[SP], t.regs[SP]);
      u := StaysOnStack(t, ops, base, size, 0);
    }
  }

  lemma FromTop(entry: Entry, was: u64, now: u64)
    requires StackChosen(entry, was, now) && Bit(entry.flags, 0)
    requires Outside(was, entry.stackPointer, entry.stackSize) && entry.stackPointer + entry.stackSize < W64
    ensures now == entry.stackPointer + entry.stackSize
  {
    TopOfStack(entry);
  }
}
