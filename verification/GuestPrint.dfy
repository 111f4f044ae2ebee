/** The two printing routines of the example program, run on the machine. */
module GuestPrint {
  import opened Bits
  import opened Memory
  import opened Isa
  import opened Machine
  import opened Runs
  import opened Guest

  /** t differs from s at most in the registers rs, the memory in [lo, hi), the arithmetic
      flags, the console and the instruction pointer. */
  ghost predicate Only(s: State, t: State, rs: set<Reg>, lo: int, hi: int) {
    && (forall r: Reg :: r !in rs ==> t.regs[r] == s.regs[r])
    && SameOutside(s.mem, t.mem, lo, hi) && SameMode(s.flags, t.flags)
    && t.elr == s.elr && t.esp == s.esp && t.eflags == s.eflags && t.einfo == s.einfo && t.eaddr == s.eaddr
    && t.evtable == s.evtable && t.ectableAddr == s.ectableAddr && t.ectable == s.ectable
  }

  lemma OnlyThen(s: State, t: State, u: State, rs: set<Reg>, lo: int, hi: int)
    requires Only(s, t, rs, lo, hi) && Only(t, u, rs, lo, hi)
    ensures Only(s, u, rs, lo, hi)
  {
  }

  // --------------------------------------------------------- print_string

  /** A zero-terminated string in memory. */
  ghost predicate StringAt(m: Memory, a: nat, str: seq<byte>) {
    && a + |str| < |m|
    && (forall i :: 0 <= i < |str| ==> m[a + i] == str[i] && str[i] != 0)
    && m[a + |str|] == 0
  }

  /** One turn of the loop prints a character and moves on. */
  lemma PrintOneChar(dec: Decoder, s0: State, s: State) returns (t: State)
    requires Reaches(dec, s0, s) && PrintString in Routines(dec, s.mem) && s.ip == Base(PrintString) + 8
    requires s.regs[0] + 1 < |s.mem| && s.mem[s.regs[0]] != 0
    ensures Reaches(dec, s0, t) && t.ip == Base(PrintString) + 8 && t.mem == s.mem
    ensures t.console == s.console + [s.mem[s.regs[0]]] && t.regs[0] == s.regs[0] + 1
    ensures Only(s, t, {0, 9}, 0, 0)
  {
    t := DoLoadByte(dec, s0, s, PrintString, 2, 9, 0);
    t := DoCmp(dec, s0, t, PrintString, 3, Byte, 9, 0);
    t := DoJump(dec, s0, t, PrintString, 4, Some(Z), 8);
    t := DoPrint(dec, s0, t, PrintString, 5, 9);
    Small64(t.regs[0] + 1);
    t := DoAdd(dec, s0, t, PrintString, 6, 0, 1);
    t := DoJump(dec, s0, t, PrintString, 7, None, 2);
  }

  lemma {:induction false} PrintAllChars(dec: Decoder, s0: State, s: State, str: seq<byte>) returns (t: State)
    requires Reaches(dec, s0, s) && PrintString in Routines(dec, s.mem) && s.ip == Base(PrintString) + 8
    requires StringAt(s.mem, s.regs[0], str)
    ensures Reaches(dec, s0, t) && t.ip == Base(PrintString) + 32 && t.mem == s.mem
    ensures t.console == s.console + str && t.regs[0] == s.regs[0] + |str|
    ensures Only(s, t, {0, 9}, 0, 0)
    decreases |str|
  {
    if str == [] {
      t := StopPrinting(dec, s0, s);
      assert s.console + str == s.console;
    } else {
      assert s.mem[s.regs[0] + 0] == str[0];
      var u := PrintOneChar(dec, s0, s);
      assert StringAt(u.mem, u.regs[0], str[1..]) by {
        forall i | 0 <= i < |str| - 1 ensures u.mem[u.regs[0] + i] == str[1..][i] && str[1..][i] != 0 {
          assert s.mem[s.regs[0] + (i + 1)] == str[i + 1];
        }
      }
      t := PrintAllChars(dec, s0, u, str[1..]);
      OnlyThen(s, u, t, {0, 9}, 0, 0);
      assert s.console + [str[0]] + str[1..] == s.console + str;
    }
  }

  lemma StopPrinting(dec: Decoder, s0: State, s: State) returns (t: State)
    requires Reaches(dec, s0, s) && PrintString in Routines(dec, s.mem) && s.ip == Base(PrintString) + 8
    requires s.regs[0] < |s.mem| && s.mem[s.regs[0]] == 0
    ensures Reaches(dec, s0, t) && t.ip == Base(PrintString) + 32 && t.mem == s.mem && t.console == s.console
    ensures Only(s, t, {9}, 0, 0)
  {
    t := DoLoadByte(dec, s0, s, PrintString, 2, 9, 0);
    t := DoCmp(dec, s0, t, PrintString, 3, Byte, 9, 0);
    t := DoJump(dec, s0, t, PrintString, 4, Some(Z), 8);
  }

  predicate Apart(lo: int, hi: int, lo': int, hi': int) {
    hi <= lo' || hi' <= lo
  }

  /** A called routine saves the frame pointer and the link register. */
  lemma Enter(dec: Decoder, s0: State, s: State, r: Routine) returns (t: State)
    requires Reaches(dec, s0, s) && r in Routines(dec, s.mem) && s.ip == Base(r)
    requires r == PrintString || r == PrintU64
    requires 16 <= s.regs[SP] <= |s.mem| && Apart(s.regs[SP] - 16, s.regs[SP], Base(r), End(r))
    ensures Reaches(dec, s0, t) && t.ip == Base(r) + 8 && t.console == s.console && r in Routines(dec, t.mem)
    ensures t.regs == s.regs[SP := s.regs[SP] - 16][FP := s.regs[SP] - 16]
    ensures Only(s, t, {SP, FP}, s.regs[SP] - 16, s.regs[SP])
    ensures ReadLe(t.mem, t.regs[FP], 8) == s.regs[FP] && ReadLe(t.mem, t.regs[FP] + 8, 8) == s.regs[LR]
  {
    t := DoPushp(dec, s0, s, r, 0, FP, LR);
    LoadedFrame(dec, s.mem, t.mem, r);
    t := DoCopy(dec, s0, t, r, 1, FP, SP);
  }

  /** The common end of both routines: drop the frame, restore the saved pair and return. */
  lemma Leave(dec: Decoder, s0: State, s: State, r: Routine, k: nat) returns (t: State)
    requires Reaches(dec, s0, s) && r in Routines(dec, s.mem) && s.ip == Base(r) + 4 * k
    requires (r == PrintString && k == 8) || (r == PrintU64 && k == 23)
    requires s.regs[FP] + 16 <= |s.mem|
    ensures Reaches(dec, s0, t) && t == s.(regs := t.regs, ip := t.regs[LR])
    ensures t.regs == s.regs[FP := ReadWord(s.mem, s.regs[FP])][LR := ReadWord(s.mem,
            s.regs[FP] + 8)][SP := s.regs[FP] + 16]
  {
    t := DoCopy(dec, s0, s, r, k, SP, FP);
    t := DoPopp(dec, s0, t, r, k + 1, FP, LR);
    t := DoRet(dec, s0, t, r, k + 2);
  }

  /** print_string appends the string at r0 to the console and returns to its caller, having
      changed only r0, r9, flags and the 16 bytes below the stack pointer. */
  lemma PrintStringReturns(dec: Decoder, s0: State, s: State, str: seq<byte>) returns (t: State)
    requires Reaches(dec, s0, s) && PrintString in Routines(dec, s.mem) && s.ip == Base(PrintString)
    requires StringAt(s.mem, s.regs[0], str)
    requires 16 <= s.regs[SP] <= |s.mem|
    requires Apart(s.regs[SP] - 16, s.regs[SP], Base(PrintString), End(PrintString))
    requires Apart(s.regs[SP] - 16, s.regs[SP], s.regs[0], s.regs[0] + |str| + 1)
    ensures Reaches(dec, s0, t) && t.ip == s.regs[LR]
    ensures t.console == s.console + str && t.regs[0] == s.regs[0] + |str|
    ensures Only(s, t, {0, 9}, s.regs[SP] - 16, s.regs[SP])
  {
    var u := Enter(dec, s0, s, PrintString);
    assert StringAt(u.mem, u.regs[0], str);
    var v := PrintAllChars(dec, s0, u, str);
    t := Leave(dec, s0, v, PrintString, 8);
  }

  // ------------------------------------------------------------ print_u64

  /** The decimal digits of n in ASCII, most significant first; none for zero. */
  function DigitsOf(n: nat): seq<byte> {
    if n == 0 then [] else DigitsOf(n / 10) + [0x30 + n % 10]
  }

  function Decimal(n: nat): seq<byte> {
    if n == 0 then [0x30] else DigitsOf(n)
  }

  /** The number a string of ASCII digits stands for. */
  function Parse(str: seq<byte>): int {
    if str == [] then 0 else 10 * Parse(str[..|str| - 1]) + (str[|str| - 1] as int - 0x30)
  }

  lemma {:induction false} DigitsMean(n: nat)
    ensures Parse(DigitsOf(n)) == n
    ensures forall i :: 0 <= i < |DigitsOf(n)| ==> 0x30 <= DigitsOf(n)[i] <= 0x39
    ensures n > 0 ==> |DigitsOf(n)| > 0 && DigitsOf(n)[0] != 0x30
  {
    if n > 0 {
      DigitsMean(n / 10);
      var str := DigitsOf(n);
      assert str[..|str| - 1] == DigitsOf(n / 10);
    }
  }

  /** Decimal notation is faithful: it reads back as the number, uses digits only and has
      no leading zero. */
  lemma DecimalMeans(n: nat)
    ensures Parse(Decimal(n)) == n
    ensures forall i :: 0 <= i < |Decimal(n)| ==> 0x30 <= Decimal(n)[i] <= 0x39
    ensures |Decimal(n)| > 0 && (Decimal(n)[0] == 0x30 ==> n == 0)
  {
    DigitsMean(n);
    assert Parse([]) == 0;
    assert [0x30][..0] == [];
  }

  function Pow10(k: nat): int
    decreases k
  {
    if k == 0 then 1 else 10 * Pow10(k - 1)
  }

  lemma {:induction false} DigitCount(n: nat, k: nat)
    requires n < Pow10(k)
    ensures |DigitsOf(n)| <= k
    decreases k
  {
    if n > 0 { DigitCount(n / 10, k - 1); }
  }

  /** A 64-bit number has at most twenty digits, so the 32-byte buffer is never overrun. */
  lemma AtMostTwenty(n: u64)
    ensures |DigitsOf(n)| <= 20
  {
    assert Pow10(10) == 100_0000_0000;
    assert Pow10(20) == 1_0000_0000_0000_0000_0000;
    DigitCount(n, 20);
  }

  /** The bytes at [a, a + |d|) are d backwards. */
  predicate Backwards(m: Memory, a: nat, d: seq<byte>) {
    a + |d| <= |m| && forall i :: 0 <= i < |d| ==> d[i] == m[a + (|d| - 1 - i)]
  }

  /** One turn of the division loop. */
  lemma StoreOneDigit(dec: Decoder, s0: State, s: State) returns (t: State)
    requires Reaches(dec, s0, s) && PrintU64 in Routines(dec, s.mem) && s.ip == Base(PrintU64) + 40
    requires s.regs[8] == 10 && s.regs[0] > 0 && s.regs[7] < |s.mem|
    requires Apart(s.regs[7], s.regs[7] + 1, Base(PrintU64), End(PrintU64))
    ensures Reaches(dec, s0, t) && t.ip == Base(PrintU64) + 40 && t.console == s.console
            && PrintU64 in Routines(dec, t.mem)
    ensures t.mem == s.mem[s.regs[7] := 0x30 + s.regs[0] % 10]
    ensures t.regs[0] == s.regs[0] / 10 && t.regs[7] == s.regs[7] + 1
    ensures Only(s, t, {0, 7, 9}, s.regs[7], s.regs[7] + 1)
  {
    var u := NextDigit(dec, s0, s);
    t := DoStoreByte(dec, s0, u, PrintU64, 14, 7, 9);
    LoadedFrame(dec, s.mem, t.mem, PrintU64);
    t := MoveOn(dec, s0, t);
  }

  lemma MoveOn(dec: Decoder, s0: State, s: State) returns (t: State)
    requires Reaches(dec, s0, s) && PrintU64 in Routines(dec, s.mem) && s.ip == Base(PrintU64) + 60
            && s.regs[7] < |s.mem|
    ensures Reaches(dec, s0, t) && t == s.(regs := s.regs[7 := s.regs[7] + 1], ip := Base(PrintU64) + 40)
  {
    Small64(s.regs[7] + 1);
    t := DoAdd(dec, s0, s, PrintU64, 15, 7, 1);
    t := DoJump(dec, s0, t, PrintU64, 16, None, 10);
  }

  lemma NextDigit(dec: Decoder, s0: State, s: State) returns (t: State)
    requires Reaches(dec, s0, s) && PrintU64 in Routines(dec, s.mem) && s.ip == Base(PrintU64) + 40
    requires s.regs[8] == 10 && s.regs[0] > 0
    ensures Reaches(dec, s0, t) && t.ip == Base(PrintU64) + 56 && t.console == s.console && t.mem == s.mem
    ensures t.regs[9] % 0x100 == 0x30 + s.regs[0] % 10 && t.regs[0] == s.regs[0] / 10
    ensures Only(s, t, {0, 9}, 0, 0)
  {
    t := TestDone(dec, s0, s);
    t := DoDiv(dec, s0, t, PrintU64, 12, 0, 9, 8);
    t := DoAddByte(dec, s0, t, PrintU64, 13, 9, 0x30);
  }

  lemma TestDone(dec: Decoder, s0: State, s: State) returns (t: State)
    requires Reaches(dec, s0, s) && PrintU64 in Routines(dec, s.mem) && s.ip == Base(PrintU64) + 40
    ensures Reaches(dec, s0, t) && t == s.(ip := t.ip, flags := t.flags) && SameMode(s.flags, t.flags)
    ensures t.ip == Base(PrintU64) + (if s.regs[0] == 0 then 68 else 48)
  {
    Small64(s.regs[0]);
    t := DoCmp(dec, s0, s, PrintU64, 10, Word, 0, 0);
    t := DoJump(dec, s0, t, PrintU64, 11, Some(Z), 17);
  }

  lemma StopDividing(dec: Decoder, s0: State, s: State) returns (t: State)
    requires Reaches(dec, s0, s) && PrintU64 in Routines(dec, s.mem) && s.ip == Base(PrintU64) + 40 && s.regs[0] == 0
    ensures Reaches(dec, s0, t) && t.ip == Base(PrintU64) + 68 && t.console == s.console && t.mem == s.mem
    ensures Only(s, t, {}, 0, 0) && t.regs == s.regs
  {
    t := TestDone(dec, s0, s);
  }

  /** The division loop leaves the digits in the buffer, least significant first. */
  lemma {:induction false} StoreAllDigits(dec: Decoder, s0: State, s: State, n: nat) returns (t: State)
    requires Reaches(dec, s0, s) && PrintU64 in Routines(dec, s.mem) && s.ip == Base(PrintU64) + 40
    requires s.regs[8] == 10 && s.regs[0] == n && s.regs[7] + |DigitsOf(n)| <= |s.mem|
    requires Apart(s.regs[7], s.regs[7] + |DigitsOf(n)|, Base(PrintU64), End(PrintU64))
    ensures Reaches(dec, s0, t) && t.ip == Base(PrintU64) + 68 && t.console == s.console
            && PrintU64 in Routines(dec, t.mem)
    ensures t.regs[7] == s.regs[7] + |DigitsOf(n)| && Backwards(t.mem, s.regs[7], DigitsOf(n))
    ensures Only(s, t, {0, 7, 9}, s.regs[7], t.regs[7])
    decreases n
  {
    if n == 0 {
      t := StopDividing(dec, s0, s);
    } else {
      var u := StoreOneDigit(dec, s0, s);
      t := StoreAllDigits(dec, s0, u, n / 10);
      assert t.mem[s.regs[7]] == 0x30 + n % 10;
      MoreBackwards(t.mem, s.regs[7], DigitsOf(n / 10), 0x30 + n % 10);
    }
  }

  lemma MoreBackwards(m: Memory, a: nat, d: seq<byte>, last: byte)
    requires Backwards(m, a + 1, d) && m[a] == last
    ensures Backwards(m, a, d + [last])
  {
  }

  lemma FewerBackwards(m: Memory, a: nat, d: seq<byte>)
    requires Backwards(m, a, d) && |d| > 0
    ensures m[a + |d| - 1] == d[0] && Backwards(m, a, d[1..])
  {
    forall i | 0 <= i < |d| - 1 ensures d[1..][i] == m[a + (|d| - 2 - i)] {
      assert d[i + 1] == m[a + (|d| - 1 - (i + 1))];
    }
  }

  /** One turn of the printing loop. */
  lemma PrintOneDigit(dec: Decoder, s0: State, s: State) returns (t: State)
    requires Reaches(dec, s0, s) && PrintU64 in Routines(dec, s.mem) && s.ip == Base(PrintU64) + 68
    requires s.regs[SP] < s.regs[7] <= |s.mem|
    ensures Reaches(dec, s0, t) && t.mem == s.mem && t.console == s.console + [s.mem[s.regs[7] - 1]]
    ensures t.regs[7] == s.regs[7] - 1
    ensures t.ip == Base(PrintU64) + (if t.regs[7] == s.regs[SP] then 92 else 68)
    ensures Only(s, t, {7, 9}, 0, 0)
  {
    Small64(s.regs[7] - 1);
    t := DoSub(dec, s0, s, PrintU64, 17, 7, 1);
    t := DoLoadByte(dec, s0, t, PrintU64, 18, 9, 7);
    t := DoPrint(dec, s0, t, PrintU64, 19, 9);
    t := PrintEnds(dec, s0, t);
  }

  lemma PrintEnds(dec: Decoder, s0: State, s: State) returns (t: State)
    requires Reaches(dec, s0, s) && PrintU64 in Routines(dec, s.mem) && s.ip == Base(PrintU64) + 80
    ensures Reaches(dec, s0, t) && t == s.(ip := t.ip, flags := t.flags) && SameMode(s.flags, t.flags)
    ensures t.ip == Base(PrintU64) + (if s.regs[7] == s.regs[SP] then 92 else 68)
  {
    t := DoCmpReg(dec, s0, s, PrintU64, 20, 7, SP);
    t := LeaveOrLoop(dec, s0, t);
  }

  lemma LeaveOrLoop(dec: Decoder, s0: State, s: State) returns (t: State)
    requires Reaches(dec, s0, s) && PrintU64 in Routines(dec, s.mem) && s.ip == Base(PrintU64) + 84
    ensures Reaches(dec, s0, t) && t == s.(ip := Base(PrintU64) + (if s.flags.zero then 92 else 68))
  {
    t := DoJump(dec, s0, s, PrintU64, 21, Some(Z), 23);
    if !s.flags.zero {
      t := DoJump(dec, s0, t, PrintU64, 22, None, 17);
    }
  }

  lemma {:induction false} PrintAllDigits(dec: Decoder, s0: State, s: State, d: seq<byte>) returns (t: State)
    requires Reaches(dec, s0, s) && PrintU64 in Routines(dec, s.mem) && s.ip == Base(PrintU64) + 68
    requires |d| > 0 && Backwards(s.mem, s.regs[SP], d) && s.regs[7] == s.regs[SP] + |d|
    ensures Reaches(dec, s0, t) && t.ip == Base(PrintU64) + 92 && t.mem == s.mem && t.console == s.console + d
    ensures Only(s, t, {7, 9}, 0, 0)
    decreases |d|
  {
    FewerBackwards(s.mem, s.regs[SP], d);
    t := PrintOneDigit(dec, s0, s);
    Front(s.console, d);
    if |d| > 1 {
      var u := t;
      t := PrintAllDigits(dec, s0, u, d[1..]);
      OnlyThen(s, u, t, {7, 9}, 0, 0);
    }
  }

  lemma Front(c: seq<byte>, d: seq<byte>)
    requires |d| > 0
    ensures c + [d[0]] + d[1..] == c + d
    ensures |d| == 1 ==> c + [d[0]] == c + d
  {
  }

  /** The start of print_u64: reserve the buffer and look whether the value is zero. */
  lemma Prepare(dec: Decoder, s0: State, s: State) returns (t: State)
    requires Reaches(dec, s0, s) && PrintU64 in Routines(dec, s.mem) && s.ip == Base(PrintU64) + 8 && s.regs[SP] >= 32
    ensures Reaches(dec, s0, t) && t.console == s.console && t.mem == s.mem
    ensures t.regs == s.regs[SP := s.regs[SP] - 32][7 := s.regs[SP] - 32][8 := 10]
    ensures t.ip == Base(PrintU64) + (if s.regs[0] == 0 then 28 else 40)
    ensures Only(s, t, {7, 8, SP}, 0, 0)
  {
    Small64(s.regs[SP] - 32);
    t := DoSub(dec, s0, s, PrintU64, 2, SP, 32);
    t := DoCopy(dec, s0, t, PrintU64, 3, 7, SP);
    t := DoLdi(dec, s0, t, PrintU64, 4, 8, 10);
    t := TestZero(dec, s0, t);
  }

  lemma TestZero(dec: Decoder, s0: State, s: State) returns (t: State)
    requires Reaches(dec, s0, s) && PrintU64 in Routines(dec, s.mem) && s.ip == Base(PrintU64) + 20
    ensures Reaches(dec, s0, t) && t == s.(ip := t.ip, flags := t.flags) && SameMode(s.flags, t.flags)
    ensures t.ip == Base(PrintU64) + (if s.regs[0] == 0 then 28 else 40)
  {
    Small64(s.regs[0]);
    t := DoCmp(dec, s0, s, PrintU64, 5, Word, 0, 0);
    t := DoJump(dec, s0, t, PrintU64, 6, Some(NZ), 10);
  }

  lemma PrintZero(dec: Decoder, s0: State, s: State) returns (t: State)
    requires Reaches(dec, s0, s) && PrintU64 in Routines(dec, s.mem) && s.ip == Base(PrintU64) + 28
    ensures Reaches(dec, s0, t) && t.ip == Base(PrintU64) + 92 && t.mem == s.mem && t.console == s.console + [0x30]
    ensures Only(s, t, {9}, 0, 0)
  {
    t := DoLdiLow(dec, s0, s, PrintU64, 7, 9, 0x30);
    t := DoPrint(dec, s0, t, PrintU64, 8, 9);
    LowByteOfLow16(t.regs[9], 0x30);
    t := DoJump(dec, s0, t, PrintU64, 9, None, 23);
  }

  lemma LowByteOfLow16(x: u64, b: byte)
    requires x % 0x1_0000 == b
    ensures x % 0x100 == b
  {
  }

  /** The body of print_u64, between the saving of the frame and its end. */
  lemma PrintValue(dec: Decoder, s0: State, s: State) returns (t: State)
    requires Reaches(dec, s0, s) && PrintU64 in Routines(dec, s.mem) && s.ip == Base(PrintU64) + 8
    requires 32 <= s.regs[SP] <= |s.mem| && Apart(s.regs[SP] - 32, s.regs[SP], Base(PrintU64), End(PrintU64))
    ensures Reaches(dec, s0, t) && t.ip == Base(PrintU64) + 92 && t.console == s.console + Decimal(s.regs[0])
    ensures PrintU64 in Routines(dec, t.mem) && Only(s, t, {0, 7, 8, 9, SP}, s.regs[SP] - 32, s.regs[SP])
  {
    var n := s.regs[0];
    t := Prepare(dec, s0, s);
    if n == 0 { t := PrintZero(dec, s0, t); } else { t := PrintDigits(dec, s0, t, n); }
  }

  lemma PrintDigits(dec: Decoder, s0: State, s: State, n: u64) returns (t: State)
    requires Reaches(dec, s0, s) && PrintU64 in Routines(dec, s.mem) && s.ip == Base(PrintU64) + 40
    requires s.regs[0] == n > 0 && s.regs[8] == 10 && s.regs[7] == s.regs[SP]
    requires s.regs[SP] + 32 <= |s.mem| && Apart(s.regs[SP], s.regs[SP] + 32, Base(PrintU64), End(PrintU64))
    ensures Reaches(dec, s0, t) && t.ip == Base(PrintU64) + 92 && t.console == s.console + Decimal(n)
    ensures PrintU64 in Routines(dec, t.mem) && Only(s, t, {0, 7, 9}, s.regs[SP], s.regs[SP] + 32)
  {
    var d := Decimal(n);
    var u := StoreInBuffer(dec, s0, s, n, d);
    t := PrintStored(dec, s0, s, u, d);
  }

  lemma DigitsShown(n: u64)
    requires n > 0
    ensures DigitsOf(n) == Decimal(n) && 0 < |Decimal(n)| <= 20
  {
    AtMostTwenty(n);
    DecimalMeans(n);
  }

  lemma StoreInBuffer(dec: Decoder, s0: State, s: State, n: u64, d: seq<byte>) returns (t: State)
    requires Reaches(dec, s0, s) && PrintU64 in Routines(dec, s.mem) && s.ip == Base(PrintU64) + 40
    requires s.regs[0] == n > 0 && s.regs[8] == 10 && s.regs[7] == s.regs[SP] && d == Decimal(n)
    requires s.regs[SP] + 32 <= |s.mem| && Apart(s.regs[SP], s.regs[SP] + 32, Base(PrintU64), End(PrintU64))
    ensures Reaches(dec, s0, t) && t.ip == Base(PrintU64) + 68 && t.console == s.console
    ensures PrintU64 in Routines(dec, t.mem) && |d| > 0 && t.regs[SP] == s.regs[SP]
    ensures t.regs[7] == t.regs[SP] + |d| && Backwards(t.mem, t.regs[SP], d)
    ensures Only(s, t, {0, 7, 9}, s.regs[SP], s.regs[SP] + 32)
  {
    DigitsShown(n);
    t := StoreAllDigits(dec, s0, s, n);
  }

  lemma PrintStored(dec: Decoder, s0: State, s: State, u: State, d: seq<byte>) returns (t: State)
    requires Reaches(dec, s0, u) && PrintU64 in Routines(dec, u.mem) && u.ip == Base(PrintU64) + 68
    requires |d| > 0 && Backwards(u.mem, u.regs[SP], d) && u.regs[7] == u.regs[SP] + |d|
    requires s.regs[SP] + 32 <= |s.mem|
    requires u.console == s.console && Only(s, u, {0, 7, 9}, s.regs[SP], s.regs[SP] + 32)
    ensures Reaches(dec, s0, t) && t.ip == Base(PrintU64) + 92 && t.console == s.console + d
    ensures PrintU64 in Routines(dec, t.mem) && Only(s, t, {0, 7, 9}, s.regs[SP], s.regs[SP] + 32)
  {
    t := PrintAllDigits(dec, s0, u, d);
  }

  /** print_u64 terminates for every value of r0, appends its decimal notation to the console
      and returns to its caller with stack and frame pointer restored, having changed only
      r0, r7, r8, r9, flags and the 48 bytes below the stack pointer. */
  lemma PrintU64Returns(dec: Decoder, s0: State, s: State) returns (t: State)
    requires Reaches(dec, s0, s) && PrintU64 in Routines(dec, s.mem) && s.ip == Base(PrintU64)
    requires 48 <= s.regs[SP] <= |s.mem|
    requires Apart(s.regs[SP] - 48, s.regs[SP], Base(PrintU64), End(PrintU64))
    ensures Reaches(dec, s0, t) && t.ip == s.regs[LR] && t.console == s.console + Decimal(s.regs[0])
    ensures Only(s, t, {0, 7, 8, 9}, s.regs[SP] - 48, s.regs[SP])
  {
    var u := Enter(dec, s0, s, PrintU64);
    var v := PrintValue(dec, s0, u);
    ReadSame(u.mem, v.mem, u.regs[FP], 8);
    ReadSame(u.mem, v.mem, u.regs[FP] + 8, 8);
    t := Leave(dec, s0, v, PrintU64, 23);
  }
}
