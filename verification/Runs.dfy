/**
 Whole runs of the machine: what every cycle keeps, how exceptions enter and leave the
 privileged level, and how a fault leaves everything it must not touch untouched.
 */
module Runs {
  import opened Bits
  import opened Memory
  import opened Isa
  import opened Machine
  import D = Decoder

  /** n cycles of a machine, stopping at a panic. */
  function Run(step: State -> Outcome, o: Outcome, n: nat): Outcome
    decreases n
  {
    if n == 0 || o.Panic? then o else Run(step, step(o.s), n - 1)
  }

  lemma {:induction false} RunTwice(step: State -> Outcome, o: Outcome, m: nat, n: nat)
    ensures Run(step, o, m + n) == Run(step, Run(step, o, m), n)
    decreases m
  {
    if m > 0 && o.Next? { RunTwice(step, step(o.s), m - 1, n); }
  }

  /** The state of this machine after n cycles from s. */
  function Cycles(dec: Decoder, s: State, n: nat): Outcome {
    Run(x => Step(dec, x), Next(s), n)
  }

  /** The states some number of cycles lead to. */
  ghost function Future(dec: Decoder, s: State): iset<State> {
    iset t: State | exists n: nat :: Cycles(dec, s, n) == Next(t)
  }

  ghost predicate Reaches(dec: Decoder, s: State, t: State) {
    t in Future(dec, s)
  }

  lemma ReachesSelf(dec: Decoder, s: State)
    ensures Reaches(dec, s, s)
  {
    assert Cycles(dec, s, 0) == Next(s);
  }

  lemma RunOnce(step: State -> Outcome, s: State)
    ensures Run(step, Next(s), 1) == step(s)
  {
  }

  lemma LastCycle(step: State -> Outcome, s: State, n: nat, t: State) returns (u: State)
    requires n > 0 && Run(step, Next(s), n) == Next(t)
    ensures Run(step, Next(s), n - 1) == Next(u) && step(u) == Next(t)
  {
    RunTwice(step, Next(s), n - 1, 1);
    u := Run(step, Next(s), n - 1).s;
    RunOnce(step, u);
  }

  lemma ReachesStep(dec: Decoder, s: State, t: State)
    requires Step(dec, s) == Next(t)
    ensures Reaches(dec, s, t)
  {
    RunOnce(x => Step(dec, x), s);
    assert Cycles(dec, s, 1) == Next(t);
  }

  lemma OneMore(step: State -> Outcome, s: State, n: nat)
    ensures Run(step, Next(s), n + 1) == match Run(step, Next(s), n) case Next(u) => step(u) case Panic => Panic
  {
    RunTwice(step, Next(s), n, 1);
    var o := Run(step, Next(s), n);
    if o.Next? { RunOnce(step, o.s); }
  }

  /** One more cycle; a panic is final. */
  lemma OneMoreCycle(dec: Decoder, s: State, n: nat, u: State, o: Outcome)
    requires Cycles(dec, s, n) == Next(u) && Step(dec, u) == o
    ensures Cycles(dec, s, n + 1) == o
  {
    OneMore(x => Step(dec, x), s, n);
  }

  lemma PanicIsFinal(dec: Decoder, s: State, m: nat, n: nat)
    requires Cycles(dec, s, m) == Panic && m <= n
    ensures Cycles(dec, s, n) == Panic
  {
    RunTwice(x => Step(dec, x), Next(s), m, n - m);
  }

  lemma Chain(dec: Decoder, s: State, t: State, u: State)
    requires Reaches(dec, s, t) && Reaches(dec, t, u)
    ensures Reaches(dec, s, u)
  {
    var m: nat :| Cycles(dec, s, m) == Next(t);
    var n: nat :| Cycles(dec, t, n) == Next(u);
    RunTwice(x => Step(dec, x), Next(s), m, n);
    assert Cycles(dec, s, m + n) == Next(u);
  }

  // ------------------------------------------- what one instruction can do

  /** The state an instruction's exception is taken in: only `exc` has moved on. */
  function FaultPoint(s: State, i: Instr): State {
    if i.Exc? then Advance(s) else s
  }

  /** Nothing but general registers, arithmetic flags, memory bytes and the instruction
      pointer differs. */
  predicate Quiet(s: State, t: State) {
    && t.elr == s.elr && t.esp == s.esp && t.eflags == s.eflags
    && t.einfo == s.einfo && t.eaddr == s.eaddr
    && t.evtable == s.evtable && t.ectableAddr == s.ectableAddr && t.ectable == s.ectable
    && t.flags.enabled == s.flags.enabled && t.flags.pl1 == s.flags.pl1
    && t.console == s.console && |t.mem| == |s.mem|
  }

  /** An instruction panics, or raises an exception having done nothing else, or completes:
      it then stays away from system state, and leaves the pointer on an aligned word
      unless it is a return, which goes where the link register says. */
  ghost predicate Contained(s: State, i: Instr, e: Exception, r: Effect) {
    match r
    case Abort => true
    case Raised(t) => t == TakeException(FaultPoint(s, i), e)
    case Done(t) =>
      && Quiet(s, t)
      && if i.Ret? then t.ip == Wrap((s.regs[LR] as int) - 4) else t.ip == s.ip || t.ip % 4 == 0
  }

  predicate IsMemory(i: Instr) {
    i.Pushs? || i.Pushp? || i.Pops? || i.Popp? || i.Lds? || i.Ldp? || i.Sts? || i.Stp?
  }

  predicate IsJump(i: Instr) {
    i.Jmpa? || i.Jmpr? || i.Cjmpa? || i.Cjmpr? || i.Calla? || i.Callr? || i.Ret?
  }

  predicate IsSystem(i: Instr) {
    i.Eret? || i.Udf? || i.Dbg? || i.Exc? || i.Nop? || i.Ldm? || i.Stm?
  }

  function AccessFault(s: State, i: Instr): Exception
    requires IsMemory(i)
  {
    match i
    case Pushs(size, _) => DataLoadError(Wrap(s.regs[SP] - ByteSize(size)), true, ByteSize(size))
    case Pushp(size, _, _) => DataLoadError(Wrap(s.regs[SP] - 2 * ByteSize(size)), true, 2 * ByteSize(size))
    case Pops(size, _) => DataLoadError(s.regs[SP], false, ByteSize(size))
    case Popp(size, _, _) => DataLoadError(s.regs[SP], false, 2 * ByteSize(size))
    case Lds(size, _, addr) => DataLoadError(s.regs[addr], false, ByteSize(size))
    case Ldp(size, _, _, addr) => DataLoadError(s.regs[addr], false, 2 * ByteSize(size))
    case Sts(size, addr, _) => DataLoadError(s.regs[addr], true, ByteSize(size))
    case Stp(size, addr, _, _) => DataLoadError(s.regs[addr], true, ByteSize(size))
  }

  lemma MemoryContained(s: State, i: Instr)
    requires IsMemory(i)
    ensures Contained(s, i, AccessFault(s, i), Exec(s, i))
  {
  }

  lemma DataContained(s: State, i: Instr)
    requires !IsMemory(i) && !IsJump(i) && !IsSystem(i)
    ensures Contained(s, i, InvalidOperation, Exec(s, i))
  {
  }

  lemma AlignedBack(x: int)
    ensures Wrap(x) % 4 == x % 4
  {
  }

  lemma JumpToContained(s: State, i: Instr, dest: u64)
    requires !i.Ret? && !i.Exc?
    ensures Contained(s, i, InvalidOperation, JumpTo(s, dest))
    ensures Contained(s, i, InvalidOperation, CallTo(s, dest))
  {
    AlignedBack(dest as int - 4);
  }

  lemma AddressContained(s: State, i: Instr)
    requires i.Jmpa? || i.Cjmpa? || i.Calla?
    ensures Contained(s, i, InvalidOperation, Exec(s, i))
  {
    JumpToContained(s, i, s.regs[i.addr]);
  }

  lemma RetContained(s: State)
    ensures Contained(s, Ret, InvalidOperation, Exec(s, Ret))
  {
  }

  lemma BranchContained(s: State, i: Instr)
    requires i.Cjmpr?
    ensures Contained(s, i, InvalidOperation, Exec(s, i))
  {
    JumpToContained(s, i, BranchAddress(s, i.branch));
  }

  lemma RelativeContained(s: State, i: Instr)
    requires i.Jmpr? || i.Callr?
    ensures Contained(s, i, InvalidOperation, Exec(s, i))
  {
    JumpToContained(s, i, TargetAddress(s, i.target));
  }

  lemma JumpContained(s: State, i: Instr)
    requires IsJump(i)
    ensures Contained(s, i, InvalidOperation, Exec(s, i))
  {
    if i.Cjmpr? { BranchContained(s, i); } else if i.Jmpr? || i.Callr? { RelativeContained(s, i); }
        else if i.Ret? { RetContained(s); } else { AddressContained(s, i); }
  }

  /** The exception a system instruction raises when it raises one. */
  function SystemFault(s: State, i: Instr): Exception
    requires IsSystem(i)
  {
    match i
    case Udf => InvalidInstruction
    case Dbg => Debug
    case Exc(val) => User(val)
    case Stm(id, src) =>
      if id == 7 && !s.flags.pl1 && !Fits(s.mem, s.regs[src], ECTABLE_SIZE)
      then DataLoadError(s.regs[src], false, ECTABLE_SIZE) else InvalidOperation
    case _ => InvalidOperation
  }

  lemma SystemContained(s: State, i: Instr)
    requires IsSystem(i) && !i.Eret? && !i.Stm?
    ensures Contained(s, i, SystemFault(s, i), Exec(s, i))
  {
  }

  /** Only at PL0 does a store to a machine register touch system state, and what it stores
      is checked. */
  lemma StmContained(s: State, i: Instr)
    requires i.Stm?
    ensures match Exec(s, i)
            case Abort => true
            case Raised(t) => t == TakeException(s, SystemFault(s, i))
            case Done(t) =>
              && t.ip == s.ip && t.regs == s.regs && t.mem == s.mem
              && (s.elr % 4 == 0 ==> t.elr % 4 == 0)
              && (s.evtable % 4 == 0 ==> t.evtable % 4 == 0)
              && (ValidEctable(s.ectable) ==> ValidEctable(t.ectable))
              && (s.flags.pl1 ==> Quiet(s, t.(console := s.console)))
  {
  }

  lemma EretContained(s: State)
    ensures match Exec(s, Eret)
            case Abort => false
            case Raised(t) => s.flags.pl1 && t == TakeException(s, InvalidOperation)
            case Done(t) =>
              && !s.flags.pl1
              && t == s.(ip := Wrap((s.elr as int) - 4), flags := s.eflags, regs := s.regs[SP := s.esp])
  {
  }

  // ------------------------------------------------- precise exceptions

  /** The word at the instruction pointer is in memory and decodes to d. */
  predicate Fetches(dec: Decoder, s: State, d: D.DecodeResult) {
    Fits(s.mem, s.ip, 4) && dec(FetchWord(s)) == d
  }

  predicate AtInstr(dec: Decoder, s: State, i: Instr) {
    Fetches(dec, s, D.Decoded(i))
  }

  lemma StepAt(dec: Decoder, s: State, i: Instr)
    requires AtInstr(dec, s, i)
    ensures Step(dec, s) == After(Exec(s, i))
  {
    StepByMeaning(dec, s, D.Decoded(i));
  }

  /** This cycle raises an exception: no instruction can be loaded, or the loaded one
      raises, or the loaded word is no instruction. */
  predicate Traps(dec: Decoder, s: State) {
    if !Fits(s.mem, s.ip, 4) then true
    else match dec(FetchWord(s))
      case Unmatched => true
      case BadField => false
      case Decoded(i) => Exec(s, i).Raised?
  }

  /** Where the interrupted program is to continue: after an `exc`, otherwise at the
      instruction that raised. */
  function ResumePoint(dec: Decoder, s: State): u64 {
    if Fits(s.mem, s.ip, 4) && (match dec(FetchWord(s)) case Decoded(i) => i.Exc? case _ => false)
    then Wrap(s.ip + 4) else s.ip
  }

  /** How far past its vector the handler starts: the arm for unmatched words falls through
      to the ordinary advance of the instruction pointer. */
  function VectorSkip(dec: Decoder, s: State): u64 {
    if Fits(s.mem, s.ip, 4) && dec(FetchWord(s)).Unmatched? then 4 else 0
  }

  /** A handler whose table entry has bit 0 of its flags set, and that interrupts a stack pointer
      outside the entry's stack, starts at the top of that stack; any other keeps the pointer. */
  predicate StackChosen(entry: Entry, was: u64, now: u64) {
    var top := (entry.stackPointer + entry.stackSize) % W64;
    now == if entry.flags % 2 == 1 && (was < entry.stackPointer || was > top) then top else was
  }

  /** t is the first state of the handler of e, entered from s: everything but the stack
      pointer and the exception registers is as it was, elr holds the resumption point
      and the handler is `skip` bytes into its vector. */
  ghost predicate Entered(s: State, resume: u64, skip: u64, e: Exception, t: State) {
    && t.mem == s.mem && t.console == s.console
    && (forall r: Reg :: r != SP ==> t.regs[r] == s.regs[r])
    && StackChosen((if s.flags.pl1 then s.ectable.pl1 else s.ectable.pl0)[ExceptionId(e)], s.regs[SP], t.regs[SP])
    && t.evtable == s.evtable && t.ectableAddr == s.ectableAddr && t.ectable == s.ectable
    && t.flags == s.flags.(enabled := false, pl1 := false)
    && t.eflags == s.flags && t.esp == s.regs[SP] && t.elr == resume
    && t.einfo == ExceptionInfo(e) && t.eaddr == (if e.DataLoadError? then e.address else 0)
    && t.ip == Wrap(s.evtable + (if s.flags.pl1 then 256 else 0) + 32 * ExceptionId(e) + skip)
  }

  lemma RaisedContained(s: State, i: Instr) returns (e: Exception)
    requires Exec(s, i).Raised?
    ensures Exec(s, i) == Raised(TakeException(FaultPoint(s, i), e))
  {
    if IsMemory(i) {
      MemoryContained(s, i);
      e := AccessFault(s, i);
    } else if IsSystem(i) {
      e := SystemFault(s, i);
      if i.Stm? { StmContained(s, i); } else if i.Eret? { EretContained(s); } else { SystemContained(s, i); }
    } else {
      e := InvalidOperation;
      if IsJump(i) { JumpContained(s, i); } else { DataContained(s, i); }
    }
  }

  lemma TakenIsEntered(s: State, resume: u64, e: Exception)
    ensures Entered(s, resume, 0, e, TakeException(s.(ip := resume), e))
    ensures Entered(s, resume, 4, e, Advance(TakeException(s.(ip := resume), e)))
  {
    WrapSum(s.evtable + 256 * B(s.flags.pl1) + 32 * ExceptionId(e), 4);
  }

  /** Exceptions are precise: a cycle that traps does nothing but enter the handler. */
  lemma PreciseException(dec: Decoder, s: State) returns (e: Exception, t: State)
    requires Traps(dec, s)
    ensures Step(dec, s) == Next(t) && Entered(s, ResumePoint(dec, s), VectorSkip(dec, s), e, t)
    ensures VectorSkip(dec, s) == 4 ==> e.InvalidInstruction?
  {
    if !Fits(s.mem, s.ip, 4) {
      e := InstructionLoadError;
      t := TakeException(s, e);
    } else {
      var d := dec(FetchWord(s));
      StepByMeaning(dec, s, d);
      if d.Unmatched? {
        e := InvalidInstruction;
        t := Advance(TakeException(s, e));
      } else {
        e := RaisedContained(s, d.i);
        t := TakeException(FaultPoint(s, d.i), e);
      }
    }
    TakenIsEntered(s, ResumePoint(dec, s), e);
  }

  lemma EretResult(u: State)
    requires !u.flags.pl1
    ensures After(ExecEret(u)) == Next(u.(ip := u.elr, flags := u.eflags, regs := u.regs[SP := u.esp]))
  {
    WrapSum(u.elr as int - 4, 4);
  }

  lemma EretStep(dec: Decoder, u: State)
    requires AtInstr(dec, u, Eret) && !u.flags.pl1
    ensures Step(dec, u) == Next(u.(ip := u.elr, flags := u.eflags, regs := u.regs[SP := u.esp]))
  {
    assert Step(dec, u) == After(ExecEret(u)) by { StepAt(dec, u, Eret); }
    EretResult(u);
  }

  /** A handler that comes to an `eret` at PL0 with elr, esp and eflags as they were on
      its entry resumes the interrupted program: flags, stack pointer and instruction
      pointer are those of the interrupted state, and nothing else changes. */
  lemma Resumes(dec: Decoder, s: State, resume: u64, skip: u64, e: Exception, t: State, u: State)
    requires Entered(s, resume, skip, e, t)
    requires AtInstr(dec, u, Eret) && !u.flags.pl1
    requires u.elr == t.elr && u.esp == t.esp && u.eflags == t.eflags
    ensures Step(dec, u) == Next(u.(ip := resume, flags := s.flags, regs := u.regs[SP := s.regs[SP]]))
  {
    EretStep(dec, u);
  }

  /** One level of nested exceptions: `fault` traps, `entry` is the first state of its
      handler, `exit` the state at the handler's eret and `back` the resumed program. */
  datatype Level = Level(fault: State, entry: State, exit: State, back: State)

  /** The handler of this level gives back the three registers it was entered with. */
  ghost predicate GivesBack(dec: Decoder, l: Level) {
    && Traps(dec, l.fault) && Step(dec, l.fault) == Next(l.entry)
    && AtInstr(dec, l.exit, Eret) && !l.exit.flags.pl1
    && l.exit.elr == l.entry.elr && l.exit.esp == l.entry.esp && l.exit.eflags == l.entry.eflags
    && Step(dec, l.exit) == Next(l.back)
  }

  /** Each handler runs into the next fault and, once that is dealt with, to its own eret;
      the innermost one runs there directly. */
  ghost predicate Nested(dec: Decoder, ls: seq<Level>) {
    && |ls| > 0 && (forall i :: 0 <= i < |ls| ==> GivesBack(dec, ls[i]))
    && (forall i :: 0 <= i < |ls| - 1 ==>
          Reaches(dec, ls[i].entry, ls[i + 1].fault) && Reaches(dec, ls[i + 1].back, ls[i].exit))
    && Reaches(dec, ls[|ls| - 1].entry, ls[|ls| - 1].exit)
  }

  predicate Restored(dec: Decoder, s: State, t: State) {
    t.ip == ResumePoint(dec, s) && t.flags == s.flags && t.regs[SP] == s.regs[SP]
  }

  lemma LevelRestored(dec: Decoder, l: Level)
    requires GivesBack(dec, l)
    ensures Restored(dec, l.fault, l.back)
    ensures Reaches(dec, l.entry, l.exit) ==> Reaches(dec, l.fault, l.back)
  {
    var e, t := PreciseException(dec, l.fault);
    Resumes(dec, l.fault, ResumePoint(dec, l.fault), VectorSkip(dec, l.fault), e, t, l.exit);
    ReachesStep(dec, l.fault, l.entry);
    ReachesStep(dec, l.exit, l.back);
    if Reaches(dec, l.entry, l.exit) {
      Chain(dec, l.fault, l.entry, l.exit);
      Chain(dec, l.fault, l.exit, l.back);
    }
  }

  /** Exceptions nest to any depth: if every handler gives back elr, esp and eflags, the
      machine comes back from the outermost fault, and every interrupted program on the way
      is resumed with its flags and stack pointer at its resumption point. */
  lemma {:induction false} NestedExceptions(dec: Decoder, ls: seq<Level>)
    requires Nested(dec, ls)
    ensures Reaches(dec, ls[0].fault, ls[0].back)
    ensures forall i :: 0 <= i < |ls| ==> Restored(dec, ls[i].fault, ls[i].back)
  {
    if |ls| > 1 {
      InnerNested(dec, ls);
      NestedExceptions(dec, ls[1..]);
      assert ls[1..][0] == ls[1];
      Chain(dec, ls[0].entry, ls[1].fault, ls[1].back);
      Chain(dec, ls[0].entry, ls[1].back, ls[0].exit);
    }
    LevelRestored(dec, ls[0]);
    forall i | 0 <= i < |ls| ensures Restored(dec, ls[i].fault, ls[i].back) {
      LevelRestored(dec, ls[i]);
    }
  }

  lemma InnerGiveBack(dec: Decoder, ls: seq<Level>)
    requires |ls| > 1 && forall i :: 0 <= i < |ls| ==> GivesBack(dec, ls[i])
    ensures forall i :: 0 <= i < |ls[1..]| ==> GivesBack(dec, ls[1..][i])
  {
    forall i | 0 <= i < |ls[1..]| ensures GivesBack(dec, ls[1..][i]) {
      assert ls[1..][i] == ls[i + 1];
    }
  }

  lemma InnerNested(dec: Decoder, ls: seq<Level>)
    requires Nested(dec, ls) && |ls| > 1
    ensures Nested(dec, ls[1..])
  {
    var inner := ls[1..];
    InnerGiveBack(dec, ls);
    forall i | 0 <= i < |inner| - 1
      ensures Reaches(dec, inner[i].entry, inner[i + 1].fault) && Reaches(dec, inner[i + 1].back, inner[i].exit)
    {
      assert inner[i] == ls[i + 1] && inner[i + 1] == ls[i + 2];
    }
  }

  // ------------------------------------------------------ machine invariant

  /** Code addresses are aligned and the table in force was checked. */
  predicate Sound(s: State) {
    s.ip % 4 == 0 && s.elr % 4 == 0 && s.evtable % 4 == 0 && ValidEctable(s.ectable)
  }

  /** This cycle returns to an address that is not a multiple of four; a return is the one
      jump that is not checked. */
  predicate MisalignedRet(dec: Decoder, s: State) {
    AtInstr(dec, s, Ret) && s.regs[LR] % 4 != 0
  }

  lemma AlignedForward(x: u64)
    ensures Wrap(x + 4) % 4 == x % 4
  {
  }

  lemma SoundEntry(s: State, resume: u64, skip: u64, e: Exception, t: State)
    requires Sound(s) && Entered(s, resume, skip, e, t) && resume % 4 == 0 && skip % 4 == 0
    ensures Sound(t)
  {
    VectorAligned(s.evtable, if s.flags.pl1 then 256 else 0, ExceptionId(e), skip);
  }

  lemma VectorAligned(base: int, half: int, id: int, skip: int)
    requires base % 4 == 0 && half % 4 == 0 && skip % 4 == 0
    ensures Wrap(base + half + 32 * id + skip) % 4 == 0
  {
    AlignedBack(base + half + 32 * id + skip);
  }

  /** An instruction other than eret and stm that completes leaves system state alone. */
  lemma QuietDone(s: State, i: Instr, t: State)
    requires Exec(s, i) == Done(t) && !i.Eret? && !i.Stm?
    ensures Quiet(s, t)
    ensures if i.Ret? then t.ip == Wrap((s.regs[LR] as int) - 4) else t.ip == s.ip || t.ip % 4 == 0
  {
    if IsMemory(i) {
      MemoryContained(s, i);
    } else if IsJump(i) {
      JumpContained(s, i);
    } else if IsSystem(i) {
      SystemContained(s, i);
    } else {
      DataContained(s, i);
    }
  }

  lemma SoundAdvance(t: State)
    ensures Sound(Advance(t)) <==> Sound(t)
    ensures Advance(t).mem == t.mem
  {
    AlignedForward(t.ip);
  }

  lemma SoundEret(s: State, t: State)
    requires Sound(s) && t == s.(ip := Wrap((s.elr as int) - 4), flags := s.eflags, regs := s.regs[SP := s.esp])
    ensures Sound(t) && t.mem == s.mem
  {
    AlignedBack((s.elr as int) - 4);
  }

  lemma SoundStm(s: State, i: Instr, t: State)
    requires Sound(s) && i.Stm? && Exec(s, i) == Done(t)
    ensures Sound(t) && t.mem == s.mem
  {
    StmContained(s, i);
  }

  lemma SoundQuiet(s: State, t: State, ret: bool)
    requires Sound(s) && Quiet(s, t)
    requires if ret then t.ip == Wrap((s.regs[LR] as int) - 4) else t.ip == s.ip || t.ip % 4 == 0
    ensures Sound(t) <==> !(ret && s.regs[LR] % 4 != 0)
    ensures |t.mem| == |s.mem|
  {
    AlignedBack((s.regs[LR] as int) - 4);
  }

  lemma SoundDone(s: State, i: Instr, t: State)
    requires Sound(s) && Exec(s, i) == Done(t)
    ensures Sound(t) <==> !(i.Ret? && s.regs[LR] % 4 != 0)
    ensures |t.mem| == |s.mem|
  {
    if i.Eret? {
      EretContained(s);
      SoundEret(s, t);
    } else if i.Stm? {
      SoundStm(s, i, t);
    } else {
      QuietDone(s, i, t);
      SoundQuiet(s, t, i.Ret?);
    }
  }

  /** What one cycle did: enter a handler, or execute an instruction to its end, in state
      `done` before the instruction pointer advances. */
  datatype Event =
    | Trapped(resume: u64, skip: u64, e: Exception)
    | Executed(i: Instr, done: State)

  ghost predicate Happens(dec: Decoder, s: State, ev: Event, t: State) {
    match ev
    case Trapped(resume, skip, e) =>
      Entered(s, resume, skip, e, t) && (resume == s.ip || resume == Wrap(s.ip + 4)) && (skip == 0 || skip == 4)
    case Executed(i, done) =>
      AtInstr(dec, s, i) && Exec(s, i) == Done(done) && t == Advance(done)
  }

  lemma WhatHappens(dec: Decoder, s: State, t: State) returns (ev: Event)
    requires Step(dec, s) == Next(t)
    ensures Happens(dec, s, ev, t)
    ensures ev.Trapped? <==> Traps(dec, s)
    ensures ev.Trapped? ==> ev.resume == ResumePoint(dec, s) && ev.skip == VectorSkip(dec, s)
    ensures ev.Trapped? && ev.skip == 4 ==> ev.e.InvalidInstruction?
  {
    if Traps(dec, s) {
      var e, _ := PreciseException(dec, s);
      ev := Trapped(ResumePoint(dec, s), VectorSkip(dec, s), e);
    } else {
      var d := dec(FetchWord(s));
      StepByMeaning(dec, s, d);
      ev := Executed(d.i, Exec(s, d.i).s);
    }
  }

  lemma RetCompletes(dec: Decoder, s: State)
    requires AtInstr(dec, s, Ret)
    ensures !Traps(dec, s)
  {
  }

  /** One cycle keeps the invariant, except exactly when it is a return to a misaligned
      address.  Memory never changes size. */
  lemma SoundStep(dec: Decoder, s: State, t: State)
    requires Sound(s) && Step(dec, s) == Next(t)
    ensures Sound(t) <==> !MisalignedRet(dec, s)
    ensures |t.mem| == |s.mem|
  {
    var ev := WhatHappens(dec, s, t);
    SoundEvent(dec, s, ev, t);
    if AtInstr(dec, s, Ret) { RetCompletes(dec, s); }
  }

  lemma SoundEvent(dec: Decoder, s: State, ev: Event, t: State)
    requires Sound(s) && Happens(dec, s, ev, t)
    ensures Sound(t) <==> !(ev.Executed? && ev.i.Ret? && s.regs[LR] % 4 != 0)
    ensures |t.mem| == |s.mem|
  {
    match ev
    case Trapped(resume, skip, e) =>
      AlignedForward(s.ip);
      SoundEntry(s, resume, skip, e, t);
    case Executed(i, done) =>
      SoundDone(s, i, done);
      SoundAdvance(done);
  }

  /** The machine after n cycles of a run in which no cycle before was a misaligned return. */
  ghost predicate ReturnsAligned(dec: Decoder, s: State, n: nat) {
    forall k: nat, t: State :: k < n && Cycles(dec, s, k) == Next(t) ==> !MisalignedRet(dec, t)
  }

  /** Whole runs: while every executed return is aligned, the invariant holds from the
      first cycle on, and the size of memory never changes. */
  lemma {:induction false} SoundRun(dec: Decoder, s: State, n: nat, t: State)
    requires Sound(s) && Cycles(dec, s, n) == Next(t) && ReturnsAligned(dec, s, n)
    ensures Sound(t) && |t.mem| == |s.mem|
    decreases n
  {
    if n > 0 {
      var u := CycleBefore(dec, s, n, t);
      LastReturnAligned(dec, s, n, u);
      SoundRun(dec, s, n - 1, u);
      SoundStep(dec, u, t);
    }
  }

  lemma LastReturnAligned(dec: Decoder, s: State, n: nat, u: State)
    requires n > 0 && ReturnsAligned(dec, s, n) && Cycles(dec, s, n - 1) == Next(u)
    ensures ReturnsAligned(dec, s, n - 1) && !MisalignedRet(dec, u)
  {
  }

  lemma CycleBefore(dec: Decoder, s: State, n: nat, t: State) returns (u: State)
    requires n > 0 && Cycles(dec, s, n) == Next(t)
    ensures Cycles(dec, s, n - 1) == Next(u) && Step(dec, u) == Next(t)
  {
    u := LastCycle(x => Step(dec, x), s, n, t);
  }

  /** A machine just created is sound, so every run of it is. */
  lemma SoundFromReset(dec: Decoder, size: u64, n: nat, t: State)
    requires Cycles(dec, Reset(size), n) == Next(t) && ReturnsAligned(dec, Reset(size), n)
    ensures Sound(t) && |t.mem| == size
  {
    SoundRun(dec, Reset(size), n, t);
  }

  // -------------------------------------------------- privilege containment

  /** Neither the privileged registers nor the privileged flag bits differ. */
  predicate SameControl(s: State, t: State) {
    && t.evtable == s.evtable && t.ectableAddr == s.ectableAddr && t.ectable == s.ectable
    && t.elr == s.elr && t.esp == s.esp && t.eflags == s.eflags
    && t.einfo == s.einfo && t.eaddr == s.eaddr
    && t.flags.enabled == s.flags.enabled && t.flags.pl1 == s.flags.pl1
  }

  /** t is the first state of a PL0 handler, entered from PL1 in a state u with the control
      state of s: at the vector of exception e in the PL1 half of the table in force, or one
      instruction into it if the word u fetched is unmatched. */
  ghost predicate EnteredFromPl1(dec: Decoder, s: State, u: State, e: Exception, t: State) {
    && SameControl(s, u) && u.flags.pl1
    && !t.flags.pl1 && !t.flags.enabled
    && t.eflags == u.flags && t.esp == u.regs[SP] && t.elr == ResumePoint(dec, u)
    && t.evtable == s.evtable && t.ectableAddr == s.ectableAddr && t.ectable == s.ectable
    && t.ip == Wrap(s.evtable + 256 + 32 * ExceptionId(e) + VectorSkip(dec, u))
    && (VectorSkip(dec, u) == 4 ==> e.InvalidInstruction?)
  }

  /** One cycle at PL1 leaves all control state alone or enters a handler. */
  lemma Pl1Step(dec: Decoder, s: State, t: State) returns (e: Exception)
    requires s.flags.pl1 && Step(dec, s) == Next(t)
    ensures if t.flags.pl1 then SameControl(s, t) else EnteredFromPl1(dec, s, s, e, t)
  {
    var ev := WhatHappens(dec, s, t);
    e := Pl1Event(dec, s, ev, t);
  }

  lemma Pl1Event(dec: Decoder, s: State, ev: Event, t: State) returns (e: Exception)
    requires s.flags.pl1 && Happens(dec, s, ev, t)
    requires ev.Trapped? ==> ev.resume == ResumePoint(dec, s) && ev.skip == VectorSkip(dec, s)
    requires ev.Trapped? && ev.skip == 4 ==> ev.e.InvalidInstruction?
    ensures if t.flags.pl1 then SameControl(s, t) else EnteredFromPl1(dec, s, s, e, t)
  {
    match ev
    case Trapped(_, _, e') =>
      e := e';
    case Executed(i, done) =>
      Pl1Executed(s, i, done);
      e := Unknown;
  }

  lemma Pl1Executed(s: State, i: Instr, t: State)
    requires s.flags.pl1 && Exec(s, i) == Done(t)
    ensures SameControl(s, t)
  {
    if i.Stm? { StmContained(s, i); } else if i.Eret? { EretContained(s); } else { QuietDone(s, i, t); }
  }

  /** Whole runs: as long as a program has been at PL1 its control state is untouched, and
      the first state not at PL1 is the entry of a handler, reached in one cycle from a
      last PL1 state u. */
  lemma {:induction false} Pl1Run(dec: Decoder, s: State, n: nat, t: State) returns (u: State, e: Exception)
    requires s.flags.pl1 && Cycles(dec, s, n) == Next(t)
    requires forall k: nat, v: State :: k < n && Cycles(dec, s, k) == Next(v) ==> v.flags.pl1
    ensures t.flags.pl1 ==> SameControl(s, t)
    ensures !t.flags.pl1 ==> n > 0 && Cycles(dec, s, n - 1) == Next(u) && EnteredFromPl1(dec, s, u, e, t)
    decreases n
  {
    u, e := s, Unknown;
    if n > 0 {
      u := CycleBefore(dec, s, n, t);
      var _, _ := Pl1Run(dec, s, n - 1, u);
      e := Pl1Step(dec, u, t);
      Pl1Widen(dec, s, u, e, t);
    }
  }

  lemma Pl1Widen(dec: Decoder, s: State, u: State, e: Exception, t: State)
    requires SameControl(s, u)
    ensures SameControl(u, t) ==> SameControl(s, t)
    ensures EnteredFromPl1(dec, u, u, e, t) ==> EnteredFromPl1(dec, s, u, e, t)
  {
  }
}
