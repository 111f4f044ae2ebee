/** The user-exception handler of the example program is transparent to what it interrupts. */
module GuestHandler {
  import opened Bits
  import opened Memory
  import opened Isa
  import opened Machine
  import opened Runs
  import opened Guest
  import opened GuestPrint

  /** Pairs 0 to n - 1 of the registers lie on the stack below `top`, pair i at
      top - 16 * (i + 1).  The slot of the stack pointer is never read back. */
  ghost predicate Saved(m: Memory, top: nat, regs: Regs, n: nat)
    requires n <= 8 && 16 * n <= top <= |m|
  {
    forall i :: 0 <= i < n ==> PairAt(m, top, regs, i)
  }

  ghost predicate PairAt(m: Memory, top: nat, regs: Regs, i: nat)
    requires i < 8 && 16 * (i + 1) <= top <= |m|
  {
    var a := top - 16 * (i + 1);
    ReadLe(m, a, 8) == regs[2 * i] && (2 * i + 1 != SP ==> ReadLe(m, a + 8, 8) == regs[2 * i + 1])
  }

  lemma SavedFrame(m: Memory, m': Memory, top: nat, regs: Regs, n: nat)
    requires n <= 8 && 16 * n <= top <= |m| && Saved(m, top, regs, n)
    requires SameWithin(m, m', top - 16 * n, top)
    ensures Saved(m', top, regs, n)
  {
    forall i | 0 <= i < n ensures PairAt(m', top, regs, i) {
      var a := top - 16 * (i + 1);
      assert PairAt(m, top, regs, i);
      ReadSame(m, m', a, 8);
      ReadSame(m, m', a + 8, 8);
    }
  }

  lemma SaveLine(j: nat)
    requires j < 8
    ensures Line(HandleUser, j) == Pushp(Word, Some(2 * j), Some(2 * j + 1))
    ensures Line(HandleUser, 27 - j) == Popp(Word, Some(2 * j), Some(2 * j + 1))
  {
  }

  /** One `pushp` of the prologue. */
  lemma SavePair(dec: Decoder, s0: State, s: State, top: nat, regs: Regs, j: nat) returns (t: State)
    requires Reaches(dec, s0, s) && HandleUser in Routines(dec, s.mem) && s.ip == Base(HandleUser) + 4 * j
    requires j < 8 && 128 <= top <= |s.mem| && Apart(top - 128, top, Base(HandleUser), End(HandleUser))
    requires s.regs == regs[SP := top - 16 * j] && Saved(s.mem, top, regs, j)
    ensures Reaches(dec, s0, t) && HandleUser in Routines(dec, t.mem) && t.ip == Base(HandleUser) + 4 * (j + 1)
    ensures SameOutside(s.mem, t.mem, top - 128, top)
    ensures t.regs == regs[SP := top - 16 * (j + 1)] && Saved(t.mem, top, regs, j + 1)
    ensures t == s.(mem := t.mem, regs := t.regs, ip := t.ip)
  {
    SaveLine(j);
    t := DoPushp(dec, s0, s, HandleUser, j, 2 * j, 2 * j + 1);
    LoadedFrame(dec, s.mem, t.mem, HandleUser);
    SavedFrame(s.mem, t.mem, top, regs, j);
    assert PairAt(t.mem, top, regs, j);
  }

  lemma {:induction false} SaveAll(dec: Decoder, s0: State, s: State, top: nat, regs: Regs, j: nat) returns (t: State)
    requires Reaches(dec, s0, s) && HandleUser in Routines(dec, s.mem) && s.ip == Base(HandleUser) + 4 * j
    requires j <= 8 && 128 <= top <= |s.mem| && Apart(top - 128, top, Base(HandleUser), End(HandleUser))
    requires s.regs == regs[SP := top - 16 * j] && Saved(s.mem, top, regs, j)
    ensures Reaches(dec, s0, t) && HandleUser in Routines(dec, t.mem) && t.ip == Base(HandleUser) + 32
    ensures SameOutside(s.mem, t.mem, top - 128, top)
    ensures t.regs == regs[SP := top - 128] && Saved(t.mem, top, regs, 8)
    ensures t == s.(mem := t.mem, regs := t.regs, ip := t.ip)
    decreases 8 - j
  {
    if j == 8 {
      t := s;
    } else {
      t := SavePair(dec, s0, s, top, regs, j);
      t := SaveAll(dec, s0, t, top, regs, j + 1);
    }
  }

  /** Pairs n to 7 are as in regs. */
  predicate Back(s: State, regs: Regs, n: nat) {
    forall r: Reg :: 2 * n <= r && r != SP ==> s.regs[r] == regs[r]
  }

  /** One `popp` of the epilogue. */
  lemma RestorePair(dec: Decoder, s0: State, s: State, top: nat, regs: Regs, j: nat) returns (t: State)
    requires Reaches(dec, s0, s) && HandleUser in Routines(dec, s.mem) && s.ip == Base(HandleUser) + 4 * (27 - j)
    requires j < 8 && 128 <= top <= |s.mem| && s.regs[SP] == top - 16 * (j + 1)
    requires Saved(s.mem, top, regs, 8) && Back(s, regs, j + 1)
    ensures Reaches(dec, s0, t) && t == s.(regs := t.regs, ip := Base(HandleUser) + 4 * (28 - j))
    ensures t.regs[SP] == top - 16 * j && Back(t, regs, j)
  {
    SaveLine(j);
    assert PairAt(s.mem, top, regs, j);
    t := DoPopp(dec, s0, s, HandleUser, 27 - j, 2 * j, 2 * j + 1);
  }

  lemma {:induction false} RestoreAll(dec: Decoder, s0: State, s: State, top: nat, regs: Regs, j: nat)
          returns (t: State)
    requires Reaches(dec, s0, s) && HandleUser in Routines(dec, s.mem) && s.ip == Base(HandleUser) + 4 * (28 - j)
    requires j <= 8 && 128 <= top <= |s.mem| && s.regs[SP] == top - 16 * j
    requires Saved(s.mem, top, regs, 8) && Back(s, regs, j)
    ensures Reaches(dec, s0, t) && t == s.(regs := t.regs, ip := Base(HandleUser) + 112)
    ensures Back(t, regs, 0)
    decreases j
  {
    if j == 0 {
      t := s;
    } else {
      t := RestorePair(dec, s0, s, top, regs, j - 1);
      t := RestoreAll(dec, s0, t, top, regs, j - 1);
    }
  }

  // --------------------------------------------------- the handler's body

  const GREETING: nat := 0x54d

  /** "Got user exception: " */
  function Greeting(): seq<byte> {
    [0x47, 0x6f, 0x74, 0x20, 0x75, 0x73, 0x65, 0x72, 0x20, 0x65] +
    [0x78, 0x63, 0x65, 0x70, 0x74, 0x69, 0x6f, 0x6e, 0x3a, 0x20]
  }

  /** What the handler prints for user exception v. */
  function Report(v: u16): seq<byte> {
    Greeting() + Decimal(v) + [0x0a]
  }

  lemma LdmEinfo(dec: Decoder, s0: State, s: State) returns (t: State)
    requires Reaches(dec, s0, s) && At(dec, s, HandleUser, 8, Ldm(7, 4)) && !s.flags.pl1
    ensures Reaches(dec, s0, t) && t == s.(regs := s.regs[7 := s.einfo], ip := s.ip + 4)
  {
    t := s.(regs := s.regs[7 := s.einfo]);
    t := Arrives(dec, s0, s, HandleUser, 8, Ldm(7, 4), t);
  }

  /** The low three bits of the exception information are its type. */
  lemma AndSeven(dec: Decoder, s0: State, s: State) returns (t: State)
    requires Reaches(dec, s0, s) && At(dec, s, HandleUser, 9, Logic(AND, Byte, Some(9), 7, Small(7), false))
    ensures Reaches(dec, s0, t) && t == s.(regs := s.regs[9 := t.regs[9]], ip := s.ip + 4)
    ensures t.regs[9] % 0x100 == s.regs[7] % 8
  {
    t := AndResult(s);
    t := Arrives(dec, s0, s, HandleUser, 9, Logic(AND, Byte, Some(9), 7, Small(7), false), t);
  }

  lemma AndResult(s: State) returns (u: State)
    ensures ExecLogic(s, AND, Byte, Some(9), 7, Small(7), false) == Done(u)
    ensures u == s.(regs := s.regs[9 := u.regs[9]]) && u.regs[9] % 0x100 == s.regs[7] % 8
  {
    SmallImmediate(7);
    var v := Bitwise(AND, s.regs[7] % 0x100, 7, 64);
    u := s.(regs := s.regs[9 := SetLow(s.regs[9], Byte, v)]);
    LowThreeSet(s.regs[9], s.regs[7]);
  }

  lemma LowThreeSet(was: u64, x: u64)
    ensures SetLow(was, Byte, Bitwise(AND, x % 0x100, 7, 64)) % 0x100 == x % 8
  {
    LowThree(x);
    SetLowParts(was, Byte, x % 8);
    SmallByte(x % 8);
  }

  lemma SmallByte(x: byte)
    ensures x % 0x100 == x
  {
  }

  lemma LowThree(x: u64)
    ensures Bitwise(AND, x % 0x100, 7, 64) == x % 8
  {
    assert Pow2(3) == 8;
    AndLowMask(x % 0x100, 3);
    ModOfMod(x);
  }

  lemma ModOfMod(x: nat)
    ensures x % 0x100 % 8 == x % 8
  {
  }

  lemma ShiftThree(dec: Decoder, s0: State, s: State) returns (t: State)
    requires Reaches(dec, s0, s) && At(dec, s, HandleUser, 13, ShiftRight(Word, Some(8), 7, ShiftImm(3), false, false))
    ensures Reaches(dec, s0, t) && t == s.(regs := s.regs[8 := s.regs[7] / 8], ip := s.ip + 4)
  {
    t := ShiftResult(s);
    t := Arrives(dec, s0, s, HandleUser, 13, ShiftRight(Word, Some(8), 7, ShiftImm(3), false, false), t);
  }

  lemma ShiftResult(s: State) returns (u: State)
    ensures ExecShr(s, Word, Some(8), 7, ShiftImm(3), false, false) == Done(u)
    ensures u == s.(regs := s.regs[8 := s.regs[7] / 8])
  {
    Pow2Values();
    Small64(s.regs[7]);
    Small64(s.regs[7] / 8);
    u := s.(regs := s.regs[8 := s.regs[7] / 8]);
  }

  /** The handler recognises a user exception and takes its value. */
  lemma TakeValue(dec: Decoder, s0: State, s: State, v: u16) returns (t: State)
    requires Reaches(dec, s0, s) && HandleUser in Routines(dec, s.mem) && s.ip == Base(HandleUser) + 32
    requires !s.flags.pl1 && s.einfo == 3 + 8 * v
    ensures Reaches(dec, s0, t) && t.ip == Base(HandleUser) + 56 && t.regs[8] == v
    ensures t.mem == s.mem && t.console == s.console && Only(s, t, {7, 8, 9}, 0, 0)
  {
    t := LdmEinfo(dec, s0, s);
    t := AndSeven(dec, s0, t);
    t := DoCmp(dec, s0, t, HandleUser, 10, Byte, 9, 3);
    t := DoJump(dec, s0, t, HandleUser, 11, Some(Z), 13);
    t := ShiftThree(dec, s0, t);
  }

  ghost predicate Ready(dec: Decoder, m: Memory) {
    && HandleUser in Routines(dec, m) && PrintString in Routines(dec, m) && PrintU64 in Routines(dec, m)
    && StringAt(m, GREETING, Greeting())
  }

  const CODE_START: nat := 0x42c
  const DATA_END: nat := 0x562

  lemma ReadyFrame(dec: Decoder, m: Memory, m': Memory)
    requires Ready(dec, m) && SameWithin(m, m', CODE_START, DATA_END)
    ensures Ready(dec, m')
  {
    LoadedFrame(dec, m, m', HandleUser);
    LoadedFrame(dec, m, m', PrintString);
    LoadedFrame(dec, m, m', PrintU64);
    forall i | 0 <= i < |Greeting()| ensures m'[GREETING + i] == Greeting()[i] && Greeting()[i] != 0 {
      assert m[GREETING + i] == Greeting()[i];
    }
  }

  /** The greeting is printed by a call to print_string. */
  lemma PrintGreeting(dec: Decoder, s0: State, s: State) returns (t: State)
    requires Reaches(dec, s0, s) && Ready(dec, s.mem) && s.ip == Base(HandleUser) + 56
    requires 16 <= s.regs[SP] <= |s.mem| && Apart(s.regs[SP] - 16, s.regs[SP], CODE_START, DATA_END)
    ensures Reaches(dec, s0, t) && t.ip == Base(HandleUser) + 64 && t.console == s.console + Greeting()
    ensures Only(s, t, {0, 9, LR}, s.regs[SP] - 16, s.regs[SP])
  {
    t := DoLdr(dec, s0, s, HandleUser, 14, 0, 0x51);
    t := DoCall(dec, s0, t, HandleUser, 15, -53);
    t := PrintStringReturns(dec, s0, t, Greeting());
  }

  /** The value is printed by a call to print_u64. */
  lemma PrintTheValue(dec: Decoder, s0: State, s: State, v: u16) returns (t: State)
    requires Reaches(dec, s0, s) && Ready(dec, s.mem) && s.ip == Base(HandleUser) + 64 && s.regs[8] == v
    requires 48 <= s.regs[SP] <= |s.mem| && Apart(s.regs[SP] - 48, s.regs[SP], CODE_START, DATA_END)
    ensures Reaches(dec, s0, t) && t.ip == Base(HandleUser) + 72 && t.console == s.console + Decimal(v)
    ensures Only(s, t, {0, 7, 8, 9, LR}, s.regs[SP] - 48, s.regs[SP])
  {
    t := DoCopy(dec, s0, s, HandleUser, 16, 0, 8);
    t := DoCall(dec, s0, t, HandleUser, 17, -44);
    t := PrintU64Returns(dec, s0, t);
  }

  lemma PrintNewline(dec: Decoder, s0: State, s: State) returns (t: State)
    requires Reaches(dec, s0, s) && HandleUser in Routines(dec, s.mem) && s.ip == Base(HandleUser) + 72
    ensures Reaches(dec, s0, t) && t.ip == Base(HandleUser) + 80 && t.mem == s.mem && t.console == s.console + [0x0a]
    ensures Only(s, t, {9}, 0, 0)
  {
    t := DoLdiLow(dec, s0, s, HandleUser, 18, 9, 0x0a);
    LowByteOfLow16(t.regs[9], 0x0a);
    t := DoPrint(dec, s0, t, HandleUser, 19, 9);
  }

  lemma Handle(dec: Decoder, s0: State, s: State, v: u16) returns (t: State)
    requires Reaches(dec, s0, s) && Ready(dec, s.mem) && s.ip == Base(HandleUser)
    requires !s.flags.pl1 && s.einfo == 3 + 8 * v
    requires 176 <= s.regs[SP] <= |s.mem| && Apart(s.regs[SP] - 176, s.regs[SP], CODE_START, DATA_END)
    ensures Reaches(dec, s0, t) && HandleUser in Routines(dec, t.mem) && t.ip == Base(HandleUser) + 112
    ensures t.console == s.console + Report(v)
    ensures Only(s, t, {SP}, s.regs[SP] - 176, s.regs[SP])
  {
    var top := s.regs[SP];
    var saved := SaveAll(dec, s0, s, top, s.regs, 0);
    ReadyFrame(dec, s.mem, saved.mem);
    var shown := Show(dec, s0, saved, v);
    SavedFrame(saved.mem, shown.mem, top, s.regs, 8);
    ReadyFrame(dec, saved.mem, shown.mem);
    t := RestoreAll(dec, s0, shown, top, s.regs, 8);
  }

  lemma Show(dec: Decoder, s0: State, s: State, v: u16) returns (t: State)
    requires Reaches(dec, s0, s) && Ready(dec, s.mem) && s.ip == Base(HandleUser) + 32
    requires !s.flags.pl1 && s.einfo == 3 + 8 * v
    requires 48 <= s.regs[SP] <= |s.mem| && Apart(s.regs[SP] - 48, s.regs[SP], CODE_START, DATA_END)
    ensures Reaches(dec, s0, t) && t.ip == Base(HandleUser) + 80 && t.console == s.console + Report(v)
    ensures Only(s, t, {0, 7, 8, 9, LR}, s.regs[SP] - 48, s.regs[SP])
  {
    var a := TakeValue(dec, s0, s, v);
    var b := PrintGreeting(dec, s0, a);
    ReadyFrame(dec, a.mem, b.mem);
    var c := PrintTheValue(dec, s0, b, v);
    ReadyFrame(dec, b.mem, c.mem);
    t := PrintNewline(dec, s0, c);
  }

  // --------------------------------------------------------- transparency

  /** `exc v` enters the handler of user exceptions, to resume after itself. */
  lemma ExcEnters(dec: Decoder, s: State, v: u16) returns (t: State)
    requires AtInstr(dec, s, Exc(v))
    ensures Step(dec, s) == Next(t) && Entered(s, Wrap(s.ip + 4), 0, User(v), t)
  {
    StepAt(dec, s, Exc(v));
    t := TakeException(s.(ip := Wrap(s.ip + 4)), User(v));
    TakenIsEntered(s, Wrap(s.ip + 4), User(v));
  }

  /** The stack pointer the handler of user exceptions gets. */
  function StackTop(s: State, v: u16): u64 {
    HandlerSp(s.ectable, s.flags, s.regs[SP], User(v))
  }

  /** A program at PL0 under this table of vectors, with room for the handler's stack clear
      of code and strings. */
  ghost predicate Interruptible(dec: Decoder, s: State, v: u16) {
    && AtInstr(dec, s, Exc(v)) && !s.flags.pl1 && s.evtable == 0x200
    && Ready(dec, s.mem) && Vector in Routines(dec, s.mem)
    && 176 <= StackTop(s, v) <= |s.mem| && Apart(StackTop(s, v) - 176, StackTop(s, v), CODE_START, DATA_END)
  }

  /** t is at the handler's first line, with the exception registers of `exc v` in s. */
  ghost predicate InHandler(s: State, v: u16, t: State) {
    && t.ip == Base(HandleUser) && t.mem == s.mem && t.console == s.console
    && t.regs == s.regs[SP := StackTop(s, v)] && !t.flags.pl1
    && t.elr == Wrap(s.ip + 4) && t.esp == s.regs[SP] && t.eflags == s.flags && t.einfo == 3 + 8 * v
    && t.evtable == s.evtable && t.ectableAddr == s.ectableAddr && t.ectable == s.ectable
  }

  lemma EntersAt(s: State, v: u16, e: State)
    requires Entered(s, Wrap(s.ip + 4), 0, User(v), e)
    ensures InHandler(s, v, e.(ip := Base(HandleUser)))
  {
  }

  lemma EnterHandler(dec: Decoder, s: State, v: u16) returns (t: State)
    requires Interruptible(dec, s, v)
    ensures Reaches(dec, s, t) && InHandler(s, v, t)
  {
    var e := ExcEnters(dec, s, v);
    ReachesStep(dec, s, e);
    t := DoFarJump(dec, s, e, Vector, 0, None, 0x97);
    EntersAt(s, v, e);
  }

  /** The handler is transparent: from `exc v` the machine comes back to the next
      instruction with every register and flag as before.  The console shows the report,
      and besides it only the exception registers and the 176 bytes below the handler's
      stack pointer have changed. */
  lemma HandlerIsTransparent(dec: Decoder, s: State, v: u16) returns (t: State)
    requires Interruptible(dec, s, v)
    ensures Reaches(dec, s, t)
    ensures t.ip == Wrap(s.ip + 4) && t.regs == s.regs && t.flags == s.flags
    ensures t.console == s.console + Report(v)
    ensures SameOutside(s.mem, t.mem, StackTop(s, v) - 176, StackTop(s, v))
    ensures t.evtable == s.evtable && t.ectableAddr == s.ectableAddr && t.ectable == s.ectable
  {
    var h := EnterHandler(dec, s, v);
    var u := Handle(dec, s, h, v);
    LineIsFetched(dec, u, HandleUser, 28, Eret);
    EretStep(dec, u);
    t := u.(ip := Wrap(s.ip + 4), flags := s.flags, regs := u.regs[SP := s.regs[SP]]);
    ReachesStep(dec, u, t);
    Chain(dec, s, u, t);
  }
}
