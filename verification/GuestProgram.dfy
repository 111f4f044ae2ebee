/** The whole example program, from a machine just created to its final loop. */
module GuestProgram {
  import opened Bits
  import opened Memory
  import opened Isa
  import opened Machine
  import opened Runs
  import opened Guest
  import opened GuestPrint
  import opened GuestHandler

  /** "Hello, world" and "After exc", with line ends. */
  function Hello(): seq<byte> {
    [0x48, 0x65, 0x6c, 0x6c, 0x6f, 0x2c, 0x20, 0x77, 0x6f, 0x72, 0x6c, 0x64, 0x0a]
  }

  function AfterExc(): seq<byte> {
    [0x41, 0x66, 0x74, 0x65, 0x72, 0x20, 0x65, 0x78, 0x63, 0x0a]
  }

  /** The program is in memory: routines, strings and an exception configuration table of zeros. */
  ghost predicate ProgramAt(dec: Decoder, m: Memory) {
    && Startup in Routines(dec, m) && Vector in Routines(dec, m) && Ready(dec, m)
    && StringAt(m, 0x534, Hello()) && StringAt(m, 0x542, AfterExc())
    && (forall i :: 0 <= i < ECTABLE_SIZE && i < |m| ==> m[i] == 0)
    && 0x100_0000 <= |m|
  }

  /** The program only writes to its stack, which ends at 0x0100_0000. */
  lemma ProgramFrame(dec: Decoder, m: Memory, m': Memory)
    requires ProgramAt(dec, m) && SameOutside(m, m', 0x1000, 0x100_0000)
    ensures ProgramAt(dec, m')
  {
    LoadedFrame(dec, m, m', Startup);
    LoadedFrame(dec, m, m', Vector);
    ReadyFrame(dec, m, m');
    StringFrame(m, m', 0x534, Hello());
    StringFrame(m, m', 0x542, AfterExc());
  }

  lemma StringFrame(m: Memory, m': Memory, a: nat, str: seq<byte>)
    requires StringAt(m, a, str) && SameWithin(m, m', a, a + |str| + 1)
    ensures StringAt(m', a, str)
  {
    forall i | 0 <= i < |str| ensures m'[a + i] == str[i] && str[i] != 0 { assert m[a + i] == str[i]; }
  }

  // ------------------------------------------------------------- set-up

  lemma {:induction false} ZerosRead(m: seq<byte>, a: nat, n: nat)
    requires Fits(m, a, n) && forall i :: a <= i < a + n ==> m[i] == 0
    ensures ReadLe(m, a, n) == 0
    decreases n
  {
    if n > 0 { ZerosRead(m, a + 1, n - 1); }
  }

  lemma ZeroEntry(m: Memory, a: nat)
    requires Fits(m, a, 24) && forall i :: a <= i < a + 24 ==> m[i] == 0
    ensures ReadEntry(m, a) == Entry(0, 0, 0)
  {
    ZerosRead(m, a, 8);
    ZerosRead(m, a + 8, 8);
    ZerosRead(m, a + 16, 8);
  }

  /** A table of zeros is valid and never switches stacks. */
  lemma ZeroTable(m: Memory)
    requires Fits(m, 0, ECTABLE_SIZE) && forall i :: 0 <= i < ECTABLE_SIZE ==> m[i] == 0
    ensures var t := ReadEctable(m, 0);
            ValidEctable(t) && forall i :: 0 <= i < 8 ==> t.pl0[i] == Entry(0, 0, 0)
  {
    var t := ReadEctable(m, 0);
    forall i | 0 <= i < 8 ensures t.pl0[i] == Entry(0, 0, 0) && t.pl1[i] == Entry(0, 0, 0) {
      ZeroEntry(m, 24 * i);
      ZeroEntry(m, 192 + 24 * i);
    }
  }

  lemma StmEctable(dec: Decoder, s0: State, s: State) returns (t: State)
    requires Reaches(dec, s0, s) && At(dec, s, Startup, 2, Stm(7, 9)) && !s.flags.pl1 && s.regs[9] == 0
    requires Fits(s.mem, 0, ECTABLE_SIZE) && forall i :: 0 <= i < ECTABLE_SIZE ==> s.mem[i] == 0
    ensures Reaches(dec, s0, t) && t == s.(ectableAddr := 0, ectable := t.ectable, ip := s.ip + 4)
    ensures forall i :: 0 <= i < 8 ==> t.ectable.pl0[i] == Entry(0, 0, 0)
  {
    ZeroTable(s.mem);
    t := s.(ectableAddr := 0, ectable := ReadEctable(s.mem, 0));
    t := Arrives(dec, s0, s, Startup, 2, Stm(7, 9), t);
  }

  lemma StmEvtable(dec: Decoder, s0: State, s: State) returns (t: State)
    requires Reaches(dec, s0, s) && At(dec, s, Startup, 4, Stm(6, 9)) && !s.flags.pl1 && s.regs[9] % 4 == 0
    ensures Reaches(dec, s0, t) && t == s.(evtable := s.regs[9], ip := s.ip + 4)
  {
    t := s.(evtable := s.regs[9]);
    t := Arrives(dec, s0, s, Startup, 4, Stm(6, 9), t);
  }

  lemma LdiStack(dec: Decoder, s0: State, s: State) returns (t: State)
    requires Reaches(dec, s0, s) && At(dec, s, Startup, 0, Ldi(SP, 0x100, 16, 3))
    ensures Reaches(dec, s0, t) && t == s.(regs := s.regs[SP := 0x100_0000], ip := s.ip + 4)
  {
    t := LdiStackResult(s);
    t := Arrives(dec, s0, s, Startup, 0, Ldi(SP, 0x100, 16, 3), t);
  }

  lemma LdiStackResult(s: State) returns (u: State)
    ensures ExecLdi(s, SP, 0x100, 16, 3) == Done(u) && u == s.(regs := s.regs[SP := 0x100_0000])
  {
    Pow2Values();
    u := s.(regs := s.regs[SP := 0x100_0000]);
  }

  /** At PL0 with the vectors in force, no stack switching and the stack empty. */
  predicate SetUp(s: State) {
    && !s.flags.pl1 && s.evtable == 0x200 && s.regs[SP] == 0x100_0000
    && forall i :: 0 <= i < 8 ==> s.ectable.pl0[i] == Entry(0, 0, 0)
  }

  lemma SettingUp(dec: Decoder, s: State) returns (t: State)
    requires ProgramAt(dec, s.mem) && s.ip == 0x400 && !s.flags.pl1
    ensures Reaches(dec, s, t) && t.mem == s.mem && t.console == s.console && t.ip == 0x414 && SetUp(t)
  {
    ReachesSelf(dec, s);
    t := LdiStack(dec, s, s);
    t := DoLdr(dec, s, t, Startup, 1, 9, -0x408);
    t := StmEctable(dec, s, t);
    t := DoLdr(dec, s, t, Startup, 3, 9, -0x210);
    t := StmEvtable(dec, s, t);
  }

  // ------------------------------------------------------------ the run

  /** `ldr r0, string` and `callr print_string`. */
  lemma PrintCall(dec: Decoder, s0: State, s: State, k: nat, str: seq<byte>, offset: rel22, distance: rel22)
          returns (t: State)
    requires Reaches(dec, s0, s) && ProgramAt(dec, s.mem) && SetUp(s) && s.ip == Base(Startup) + 4 * k
    requires (k == 5 && offset == 0x11c && distance == 4 && str == Hello())
            || (k == 8 && offset == 0x11e && distance == 1 && str == AfterExc())
    ensures Reaches(dec, s0, t) && ProgramAt(dec, t.mem) && SetUp(t) && t.ip == Base(Startup) + 4 * (k + 2)
    ensures t.console == s.console + str
  {
    t := DoLdr(dec, s0, s, Startup, k, 0, offset);
    t := DoCall(dec, s0, t, Startup, k + 1, distance);
    t := PrintStringReturns(dec, s0, t, str);
    ProgramFrame(dec, s.mem, t.mem);
  }

  lemma NoSwitch(s: State, v: u16)
    requires SetUp(s)
    ensures StackTop(s, v) == s.regs[SP]
  {
  }

  lemma ExcReported(dec: Decoder, s0: State, s: State) returns (t: State)
    requires Reaches(dec, s0, s) && ProgramAt(dec, s.mem) && SetUp(s) && s.ip == Base(Startup) + 28
    ensures Reaches(dec, s0, t) && ProgramAt(dec, t.mem) && SetUp(t) && t.ip == Base(Startup) + 32
    ensures t.console == s.console + Report(0x1234)
  {
    NoSwitch(s, 0x1234);
    LineIsFetched(dec, s, Startup, 7, Exc(0x1234));
    t := HandlerIsTransparent(dec, s, 0x1234);
    Small64(s.ip + 4);
    Chain(dec, s0, s, t);
    ProgramFrame(dec, s.mem, t.mem);
  }

  function Output(): seq<byte> {
    Hello() + Report(0x1234) + AfterExc()
  }

  /** From the entry point the program prints its two lines with the report of user exception
      0x1234 between them, and ends in a jump to itself. */
  lemma ProgramPrints(dec: Decoder, s: State) returns (t: State)
    requires ProgramAt(dec, s.mem) && s.ip == 0x400 && !s.flags.pl1
    ensures Reaches(dec, s, t) && t.console == s.console + Output()
    ensures t.ip == Base(Startup) + 40 && Startup in Routines(dec, t.mem)
  {
    var a := SettingUp(dec, s);
    var b := PrintCall(dec, s, a, 5, Hello(), 0x11c, 4);
    var c := ExcReported(dec, s, b);
    t := PrintCall(dec, s, c, 8, AfterExc(), 0x11e, 1);
    InOrder(s.console, Hello(), Report(0x1234), AfterExc());
  }

  lemma InOrder(c: seq<byte>, x: seq<byte>, y: seq<byte>, z: seq<byte>)
    ensures c + x + y + z == c + (x + y + z)
  {
  }

  lemma LoopStep(dec: Decoder, s: State)
    requires Startup in Routines(dec, s.mem) && s.ip == Base(Startup) + 40
    ensures Step(dec, s) == Next(s)
  {
    LineIsFetched(dec, s, Startup, 10, Jmpr(None, JumpRel(-1)));
    StepAt(dec, s, Jmpr(None, JumpRel(-1)));
    var u := JumpResult(s, -1);
  }

  /** There it stays for ever, printing nothing more. */
  lemma {:induction false} StaysInLoop(dec: Decoder, s: State, n: nat)
    requires Startup in Routines(dec, s.mem) && s.ip == Base(Startup) + 40
    ensures Cycles(dec, s, n) == Next(s)
    decreases n
  {
    if n > 0 {
      StaysInLoop(dec, s, n - 1);
      LoopStep(dec, s);
      OneMoreCycle(dec, s, n - 1, s, Next(s));
    }
  }
}
