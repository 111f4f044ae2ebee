/**
 The example program from its text to its output: it assembles, its file holds the routines,
 strings and tables the proofs about it suppose, and a machine that loads the file and runs
 prints what the program says.
 */
module ExampleRun {
  import opened Bits
  import opened Isa
  import opened Memory
  import opened Machine
  import opened Runs
  import opened Expressions
  import opened Operands
  import opened Meaning
  import opened Emission
  import opened Layout
  import opened Agreement
  import opened Image
  import opened EndToEnd
  import opened Guest
  import opened GuestPrint
  import opened GuestHandler
  import opened GuestProgram
  import opened Statements
  import opened ExampleText
  import opened ExampleLayout
  import opened ExampleMeaning
  import opened ExampleLines
  import V = Vm
  import D = Decoder

  // --------------------------------------------- a statement's part of memory

  /** The emulator's decoder.  This and the next open by Opened. */
  ghost predicate Emulates(dec: Decoder) {
    forall x {:trigger Opened(x)} :: Opened(x) ==> dec == D.Decode
  }

  /** The assembler of single instructions. */
  ghost predicate Assembles(asm: Assembler) {
    forall x {:trigger Opened(x)} :: Opened(x) ==> asm == Assemble
  }

  /** A program as statements, assembled and in memory. */
  ghost predicate TextIn(asm: Assembler, sts: seq<Statement>, names: Names, m: Memory) {
    Built(asm, Program(sts), names, m) && Ascending(Program(sts), names)
  }

  lemma StatementWord(asm: Assembler, sts: seq<Statement>, names: Names, m: Memory, k: nat, src: Source, a: u64)
    requires TextIn(asm, sts, names, m) && k < |sts| && sts[k].item == Instruction(src)
    requires Reached(sts, names, k) == Ok(a) && a % 4 == 0
    ensures Fits(m, a, 4) && asm(src, names, a) == Ok(CodeWord(m, a))
  {
    StatementKeeps(sts, names, k, a);
    Aligned(a);
    WordAtItem(asm, Program(sts), names, Index(sts, k), m, a);
  }

  lemma WordMeans(asm: Assembler, dec: Decoder, src: Source, names: Names, own: u64, i: Instr, w: u32)
    requires Assembles(asm) && Emulates(dec) && Means(src, names, own, i) && asm(src, names, own) == Ok(w)
    ensures dec(w) == D.Decoded(i)
  {
    assert Opened(0);
    var b := AssembledMeans(src, names, own);
  }

  /** A line that reads as i is found as i by the emulator. */
  lemma StatementMeans(asm: Assembler, dec: Decoder, sts: seq<Statement>, names: Names, m: Memory, k: nat,
          src: Source, a: u64, i: Instr)
    requires TextIn(asm, sts, names, m) && k < |sts| && sts[k].item == Instruction(src)
    requires Reached(sts, names, k) == Ok(a) && a % 4 == 0
    requires Assembles(asm) && Emulates(dec) && Reading(src, names, a) == Some(i)
    ensures Fits(m, a, 4) && dec(CodeWord(m, a)) == D.Decoded(i)
  {
    StatementWord(asm, sts, names, m, k, src, a);
    ReadingMeans(src, names, a);
    WordMeans(asm, dec, src, names, a, i, CodeWord(m, a));
  }

  lemma StatementValue(asm: Assembler, sts: seq<Statement>, names: Names, m: Memory, k: nat, a: u64, size: Size,
          vals: seq<Expr>, j: nat)
    requires TextIn(asm, sts, names, m) && k < |sts| && sts[k].item == Write(size, vals) && j < |vals|
    requires Reached(sts, names, k) == Ok(a)
    ensures HasValue(m, a, size, vals[j], names, j)
  {
    StatementKeeps(sts, names, k, a);
    var items := Program(sts);
    var f := Emitted(asm, items, names, |items|).value.file;
    ImageHolds(asm, items, names, Index(sts, k), |items|);
    HeldInMemory(f, m, a, size, vals[j], names, j);
  }

  lemma HeldInMemory(f: seq<byte>, m: Memory, a: u64, size: Size, e: Expr, names: Names, j: nat)
    requires Extends(f, m) && HasValue(f, a, size, e, names, j)
    ensures HasValue(m, a, size, e, names, j)
  {
    var at := AfterWrite(a, size, j);
    SliceStays(f, m, at, at + ByteSize(size));
  }

  lemma ByteStored(v: u64)
    requires v < 0x100
    ensures Stored(v, Byte) == [v]
  {
    Pow2Values();
    SmallRest(v, 0x100);
    assert LeBytes(v / 0x100, 0) == [];
  }

  lemma ByteHeld(m: Memory, a: u64, names: Names, j: nat, v: u64)
    requires HasValue(m, a, Byte, Int(v), names, j) && v < 0x100 && a + j < W64
    ensures a + j < |m| && m[a + j] == v
  {
    ByteStored(v);
    Small64(a + j);
    assert m[a + j..a + j + 1] == [v];
    assert m[a + j] == m[a + j..a + j + 1][0];
  }

  lemma StatementByte(asm: Assembler, sts: seq<Statement>, names: Names, m: Memory, k: nat, a: u64, str: seq<byte>,
          j: nat)
    requires TextIn(asm, sts, names, m) && k < |sts| && sts[k].item == Write(Byte, Bytes(str)) && j <= |str|
    requires Reached(sts, names, k) == Ok(a) && a + |str| < W64
    ensures a + j < |m| && m[a + j] == if j < |str| then str[j] else 0
  {
    StatementValue(asm, sts, names, m, k, a, Byte, Bytes(str), j);
    ByteHeld(m, a, names, j, if j < |str| then str[j] else 0);
  }

  lemma StatementString(asm: Assembler, sts: seq<Statement>, names: Names, m: Memory, k: nat, a: u64, str: seq<byte>)
    requires TextIn(asm, sts, names, m) && k < |sts| && sts[k].item == Write(Byte, Bytes(str))
    requires Reached(sts, names, k) == Ok(a) && a + |str| < W64 && forall j :: 0 <= j < |str| ==> str[j] != 0
    ensures StringAt(m, a, str)
  {
    StatementByte(asm, sts, names, m, k, a, str, |str|);
    forall j | 0 <= j < |str| ensures m[a + j] == str[j] { StatementByte(asm, sts, names, m, k, a, str, j); }
  }

  lemma ZeroStored()
    ensures Stored(0, Word) == [0, 0, 0, 0, 0, 0, 0, 0]
  {
    Pow2Values();
    assert LeBytes(0, 4) == [0, 0, 0, 0];
    assert LeBytes(0, 8) == [0, 0, 0, 0] + LeBytes(0, 4);
  }

  lemma ZeroHeld(m: Memory, a: u64, names: Names, i: nat)
    requires HasValue(m, a, Word, Int(0), names, 0) && a <= i < a + 8
    ensures i < |m| && m[i] == 0
  {
    ZeroStored();
    Small64(a);
    assert m[a..a + 8] == [0, 0, 0, 0, 0, 0, 0, 0];
    assert m[i] == m[a..a + 8][i - a];
  }

  lemma StatementZero(asm: Assembler, sts: seq<Statement>, names: Names, m: Memory, k: nat, a: u64, i: nat)
    requires TextIn(asm, sts, names, m) && k < |sts| && sts[k].item == Write(Word, [Int(0)])
    requires Reached(sts, names, k) == Ok(a) && a <= i < a + 8
    ensures i < |m| && m[i] == 0
  {
    StatementValue(asm, sts, names, m, k, a, Word, [Int(0)], 0);
    ZeroHeld(m, a, names, i);
  }

  // ----------------------------------------------------- text against listing

  // Each of these opens by Opened, so that a proof about one line carries the text, the
  // names and the table of readings without looking into them.

  /** The values of all names the lines refer to. */
  ghost predicate Known(names: Names) {
    forall x {:trigger Opened(x)} :: Opened(x) ==>
      && Worth(names, "ectable", 0) && Worth(names, "evtable", 0x200) && Worth(names, "loop", 0x428)
      && Worth(names, "hello_world_str", 0x534) && Worth(names, "after_exc_str", 0x542)
          && Worth(names, "user_value_str", 0x54d)
      && Worth(names, "print_string", 0x42c) && Worth(names, "print_string_loop", 0x434)
      && Worth(names, "print_string_loop_done", 0x44c) && Worth(names, "print_u64", 0x458)
      && Worth(names, "print_u64_loop", 0x480) && Worth(names, "print_u64_loop_done", 0x49c)
      && Worth(names, "print_u64_char_loop", 0x49c) && Worth(names, "print_u64_done", 0x4b4)
      && Worth(names, "handle_exc_pl0_user", 0x4c0) && Worth(names, "handle_exc_pl0_user_valid_exc_id", 0x4f4)
      && Worth(names, "mreg_vm_console", 0xdead1)
  }

  /** A source line at address a reads as i. */
  ghost predicate Reads(src: Source, names: Names, a: u64, i: Instr) {
    forall x {:trigger Opened(x)} :: Opened(x) ==> Reading(src, names, a) == Some(i)
  }

  /** Statement k of the text is this line, at address a. */
  ghost predicate Stands(k: nat, src: Source, a: u64) {
    forall x {:trigger Opened(x)} :: Opened(x) ==>
      k < STATEMENTS && Text(k).item == Instruction(src) && Where(k) == a && a % 4 == 0 && a < 0x1000
  }

  /** The assembler can write statement k. */
  ghost predicate CanWrite(asm: Assembler, names: Names, k: nat) {
    forall x {:trigger Opened(x)} :: Opened(x) ==> k < STATEMENTS && Writable(asm, Text(k).item, names, Where(k))
  }

  /** The assembled text is in memory. */
  ghost predicate Hosts(asm: Assembler, names: Names, m: Memory) {
    forall x {:trigger Opened(x)} :: Opened(x) ==> TextIn(asm, Example(), names, m)
  }

  lemma NamesKnown()
    ensures Known(ExampleNames())
  {
    TableNames();
    PrintNames();
    DigitNames();
    HandlerNames();
    HelloName();
    AfterExcName();
    UserValueName();
    ConsoleName();
  }

  lemma StartupStands(k: nat)
    requires k < 11
    ensures Stands(84 + k, StartupSource(k), 0x400 + 4 * k)
  {
  }

  lemma StartupReads(names: Names, k: nat) returns (src: Source, i: Instr)
    requires Known(names) && k < 11
    ensures i == Guest.StartupLine(k) && Reads(src, names, 0x400 + 4 * k, i) && Stands(84 + k, src, 0x400 + 4 * k)
  {
    src, i := StartupSource(k), Guest.StartupLine(k);
    StartupStands(k);
    assert Opened(0);
    if k < 5 { TableLines(names, k); } else { StartupLines(names, k); }
  }

  lemma PrintStringStands(k: nat)
    requires k < 11
    ensures Stands(95 + k, PrintStringSource(k), 0x42c + 4 * k)
  {
  }

  lemma PrintStringReads(names: Names, k: nat) returns (src: Source, i: Instr)
    requires Known(names) && k < 11
    ensures i == Guest.PrintStringLine(k) && Reads(src, names, 0x42c + 4 * k, i) && Stands(95 + k, src, 0x42c + 4 * k)
  {
    src, i := PrintStringSource(k), Guest.PrintStringLine(k);
    PrintStringStands(k);
    assert Opened(0);
    PrintStringLines(names, k);
  }

  lemma PrintU64Stands(k: nat)
    requires k < 26
    ensures Stands(106 + k, PrintU64Source(k), 0x458 + 4 * k)
  {
  }

  lemma PrintU64Reads(names: Names, k: nat) returns (src: Source, i: Instr)
    requires Known(names) && k < 26
    ensures i == Guest.PrintU64Line(k) && Reads(src, names, 0x458 + 4 * k, i) && Stands(106 + k, src, 0x458 + 4 * k)
  {
    src, i := PrintU64Source(k), Guest.PrintU64Line(k);
    PrintU64Stands(k);
    assert Opened(0);
    if k < 10 { PrintZeroLines(names, k); } else if k < 17 { DigitLines(names, k); }
    else if k < 22 { CharLines(names, k); } else { DoneLines(names, k); }
  }

  lemma HandleUserStands(k: nat)
    requires k < 29
    ensures Stands(132 + k, HandleUserSource(k), 0x4c0 + 4 * k)
  {
  }

  lemma HandleUserReads(names: Names, k: nat) returns (src: Source, i: Instr)
    requires Known(names) && k < 29
    ensures i == Guest.HandleUserLine(k) && Reads(src, names, 0x4c0 + 4 * k, i) && Stands(132 + k, src, 0x4c0 + 4 * k)
  {
    src, i := HandleUserSource(k), Guest.HandleUserLine(k);
    HandleUserStands(k);
    assert Opened(0);
    if k < 8 { SavingLines(names, k); } else if k < 13 { CheckingLines(names, k); }
    else if k < 20 { ReportingLines(names, k); } else { RestoringLines(names, k); }
  }

  lemma VectorReads(names: Names, v: nat, k: nat, a: u64) returns (src: Source, i: Instr)
    requires Known(names) && v < 16 && k == 52 + 2 * v && a == 0x200 + 0x20 * v
    ensures i == (if v == 3 then Jmpr(None, JumpRel(0x97)) else Udf)
    ensures Reads(src, names, a, i) && Stands(k, src, a)
  {
    src, i := VectorSource(v), if v == 3 then Jmpr(None, JumpRel(0x97)) else Udf;
    VectorStands(v);
    VectorRead(names, v, i);
  }

  lemma VectorStands(v: nat)
    requires v < 16
    ensures Stands(52 + 2 * v, VectorSource(v), 0x200 + 0x20 * v)
  {
  }

  lemma VectorRead(names: Names, v: nat, i: Instr)
    requires Known(names) && v < 16 && i == if v == 3 then Jmpr(None, JumpRel(0x97)) else Udf
    ensures Reads(VectorSource(v), names, 0x200 + 0x20 * v, i)
  {
    assert Opened(0);
    VectorLines(names, v);
  }

  // ---------------------------------------------------------------- assembly

  lemma ReadsAssembles(asm: Assembler, src: Source, names: Names, a: u64, i: Instr)
    requires Assembles(asm) && Reads(src, names, a, i)
    ensures asm(src, names, a).Ok?
  {
    assert Opened(0);
    ReadingMeans(src, names, a);
  }

  lemma StandsWritable(asm: Assembler, names: Names, k: nat, src: Source, a: u64)
    requires Stands(k, src, a) && asm(src, names, a).Ok?
    ensures CanWrite(asm, names, k)
  {
    assert Opened(0);
    assert Align(a) == a by { Aligned(a); }
    assert Writable(asm, Instruction(src), names, a);
  }

  lemma CodeWritable(asm: Assembler, names: Names, k: nat, src: Source, a: u64, i: Instr)
    requires Assembles(asm) && Stands(k, src, a) && Reads(src, names, a, i)
    ensures CanWrite(asm, names, k)
  {
    ReadsAssembles(asm, src, names, a, i);
    StandsWritable(asm, names, k, src, a);
  }

  lemma DataWritable(asm: Assembler, names: Names, k: nat)
    requires k < 51 || (51 <= k <= 83 && k % 2 == 1) || 161 <= k < STATEMENTS
    ensures CanWrite(asm, names, k)
  {
    if k >= 161 { assert |Text(k).item.vals| < 22; }
  }

  lemma StartupWritable(asm: Assembler, names: Names, k: nat)
    requires Assembles(asm) && Known(names) && k < 11
    ensures CanWrite(asm, names, 84 + k)
  {
    var src, i := StartupReads(names, k);
    CodeWritable(asm, names, 84 + k, src, 0x400 + 4 * k, i);
  }

  lemma PrintStringWritable(asm: Assembler, names: Names, k: nat)
    requires Assembles(asm) && Known(names) && k < 11
    ensures CanWrite(asm, names, 95 + k)
  {
    var src, i := PrintStringReads(names, k);
    CodeWritable(asm, names, 95 + k, src, 0x42c + 4 * k, i);
  }

  lemma PrintU64Writable(asm: Assembler, names: Names, k: nat)
    requires Assembles(asm) && Known(names) && k < 26
    ensures CanWrite(asm, names, 106 + k)
  {
    var src, i := PrintU64Reads(names, k);
    CodeWritable(asm, names, 106 + k, src, 0x458 + 4 * k, i);
  }

  lemma HandleUserWritable(asm: Assembler, names: Names, k: nat)
    requires Assembles(asm) && Known(names) && k < 29
    ensures CanWrite(asm, names, 132 + k)
  {
    var src, i := HandleUserReads(names, k);
    CodeWritable(asm, names, 132 + k, src, 0x4c0 + 4 * k, i);
  }

  lemma RoutinesWritable(asm: Assembler, names: Names, k: nat)
    requires Assembles(asm) && Known(names) && 84 <= k < 161
    ensures CanWrite(asm, names, k)
  {
    if k < 95 { StartupWritable(asm, names, k - 84); }
    else if k < 106 { PrintStringWritable(asm, names, k - 95); }
    else if k < 132 { PrintU64Writable(asm, names, k - 106); }
    else { HandleUserWritable(asm, names, k - 132); }
  }

  lemma TextWritable(asm: Assembler, names: Names, k: nat)
    requires Assembles(asm) && Known(names) && k < STATEMENTS
    ensures CanWrite(asm, names, k)
  {
    if 84 <= k < 161 {
      RoutinesWritable(asm, names, k);
    } else if k < 51 || k >= 83 {
      DataWritable(asm, names, k);
    } else {
      if k % 2 == 0 { VectorWritable(asm, names, (k - 52) / 2, k); } else { DataWritable(asm, names, k); }
    }
  }

  lemma VectorWritable(asm: Assembler, names: Names, v: nat, k: nat)
    requires Assembles(asm) && Known(names) && v < 16 && k == 52 + 2 * v
    ensures CanWrite(asm, names, k)
  {
    var src, i := VectorReads(names, v, k, 0x200 + 0x20 * v);
    CodeWritable(asm, names, k, src, 0x200 + 0x20 * v, i);
  }

  lemma TextEmits(asm: Assembler, names: Names)
    requires Assembles(asm) && Known(names)
    ensures Emitted(asm, Program(Example()), names, |Program(Example())|).Ok? && Ascending(Program(Example()), names)
  {
    forall k | 0 <= k < STATEMENTS
      ensures Reached(Example(), names, k) == Ok(Where(k)) && Writable(asm, Example()[k].item, names, Where(k))
      ensures !Example()[k].item.Label?
    {
      TextAt(names, k);
      TextWritable(asm, names, k);
      TextLiteral(k);
      assert Opened(0);
    }
    StatementsEmit(asm, Example(), names);
  }

  // ------------------------------------------------------------ in the memory

  lemma TextAt(names: Names, k: nat)
    requires k < STATEMENTS
    ensures Example()[k] == Text(k) && Reached(Example(), names, k) == Ok(Where(k))
  {
    Addresses(k, names);
  }

  /** A line of the text is found by the emulator as what it reads as. */
  lemma LineHosted(asm: Assembler, dec: Decoder, names: Names, m: Memory, k: nat, src: Source, a: u64, i: Instr)
    requires Hosts(asm, names, m) && Assembles(asm) && Emulates(dec) && Stands(k, src, a) && Reads(src, names, a, i)
    ensures Fits(m, a, 4) && dec(CodeWord(m, a)) == D.Decoded(i)
  {
    assert Opened(0);
    TextAt(names, k);
    StatementMeans(asm, dec, Example(), names, m, k, src, a, i);
  }

  lemma StartupIn(asm: Assembler, dec: Decoder, names: Names, m: Memory, k: nat) returns (i: Instr)
    requires Hosts(asm, names, m) && Assembles(asm) && Emulates(dec) && Known(names) && k < 11
    ensures i == Guest.StartupLine(k) && Fits(m, 0x400 + 4 * k, 4) && dec(CodeWord(m, 0x400 + 4 * k)) == D.Decoded(i)
  {
    var src;
    src, i := StartupReads(names, k);
    LineHosted(asm, dec, names, m, 84 + k, src, 0x400 + 4 * k, i);
  }

  lemma PrintStringIn(asm: Assembler, dec: Decoder, names: Names, m: Memory, k: nat) returns (i: Instr)
    requires Hosts(asm, names, m) && Assembles(asm) && Emulates(dec) && Known(names) && k < 11
    ensures i == Guest.PrintStringLine(k) && Fits(m, 0x42c + 4 * k, 4)
            && dec(CodeWord(m, 0x42c + 4 * k)) == D.Decoded(i)
  {
    var src;
    src, i := PrintStringReads(names, k);
    LineHosted(asm, dec, names, m, 95 + k, src, 0x42c + 4 * k, i);
  }

  lemma PrintU64In(asm: Assembler, dec: Decoder, names: Names, m: Memory, k: nat) returns (i: Instr)
    requires Hosts(asm, names, m) && Assembles(asm) && Emulates(dec) && Known(names) && k < 26
    ensures i == Guest.PrintU64Line(k) && Fits(m, 0x458 + 4 * k, 4) && dec(CodeWord(m, 0x458 + 4 * k)) == D.Decoded(i)
  {
    var src;
    src, i := PrintU64Reads(names, k);
    LineHosted(asm, dec, names, m, 106 + k, src, 0x458 + 4 * k, i);
  }

  lemma HandleUserIn(asm: Assembler, dec: Decoder, names: Names, m: Memory, k: nat) returns (i: Instr)
    requires Hosts(asm, names, m) && Assembles(asm) && Emulates(dec) && Known(names) && k < 29
    ensures i == Guest.HandleUserLine(k) && Fits(m, 0x4c0 + 4 * k, 4) && dec(CodeWord(m, 0x4c0 + 4 * k)) == D.Decoded(i)
  {
    var src;
    src, i := HandleUserReads(names, k);
    LineHosted(asm, dec, names, m, 132 + k, src, 0x4c0 + 4 * k, i);
  }

  lemma VectorIn(asm: Assembler, dec: Decoder, names: Names, m: Memory)
    requires Hosts(asm, names, m) && Assembles(asm) && Emulates(dec) && Known(names)
    ensures Fits(m, 0x260, 4) && dec(CodeWord(m, 0x260)) == D.Decoded(Jmpr(None, JumpRel(0x97)))
  {
    var src, i := VectorReads(names, 3, 58, 0x260);
    LineHosted(asm, dec, names, m, 58, src, 0x260, i);
  }

  lemma LineIn(asm: Assembler, dec: Decoder, names: Names, m: Memory, r: Routine, k: nat)
    requires Hosts(asm, names, m) && Assembles(asm) && Emulates(dec) && Known(names) && k < Lines(r)
    ensures Fits(m, Base(r) + 4 * k, 4) && dec(CodeWord(m, Base(r) + 4 * k)) == D.Decoded(Line(r, k))
  {
    match r
    case Vector => VectorIn(asm, dec, names, m);
    case Startup => var i := StartupIn(asm, dec, names, m, k);
    case PrintString => var i := PrintStringIn(asm, dec, names, m, k);
    case PrintU64 => var i := PrintU64In(asm, dec, names, m, k);
    case HandleUser => var i := HandleUserIn(asm, dec, names, m, k);
  }

  lemma RoutineIn(asm: Assembler, dec: Decoder, names: Names, m: Memory, r: Routine)
    requires Hosts(asm, names, m) && Assembles(asm) && Emulates(dec) && Known(names)
    ensures r in Routines(dec, m)
  {
    LineIn(asm, dec, names, m, r, Lines(r) - 1);
    forall k: nat | Numbered(k) && k < Lines(r) ensures dec(CodeWord(m, Base(r) + 4 * k)) == D.Decoded(Line(r, k)) {
      LineIn(asm, dec, names, m, r, k);
    }
  }

  /** Statement k of the text writes a string, with its final zero, at address a. */
  ghost predicate Spells(k: nat, a: u64, str: seq<byte>) {
    forall x {:trigger Opened(x)} :: Opened(x) ==>
      && k < STATEMENTS && Text(k).item == Write(Byte, Bytes(str)) && Where(k) == a && a + |str| < W64
      && forall j :: 0 <= j < |str| ==> str[j] != 0
  }

  lemma HelloSpelt()
    ensures Spells(161, 0x534, Hello())
  {
  }

  lemma AfterExcSpelt()
    ensures Spells(162, 0x542, AfterExc())
  {
  }

  lemma GreetingSpelt()
    ensures Spells(163, GREETING, Greeting())
  {
  }

  lemma StringIn(asm: Assembler, names: Names, m: Memory, k: nat, a: u64, str: seq<byte>)
    requires Hosts(asm, names, m) && Spells(k, a, str)
    ensures StringAt(m, a, str)
  {
    assert Opened(0);
    TextAt(names, k);
    StatementString(asm, Example(), names, m, k, a, str);
  }

  lemma StringsIn(asm: Assembler, names: Names, m: Memory)
    requires Hosts(asm, names, m)
    ensures StringAt(m, 0x534, Hello()) && StringAt(m, 0x542, AfterExc()) && StringAt(m, GREETING, Greeting())
  {
    HelloSpelt();
    StringIn(asm, names, m, 161, 0x534, Hello());
    AfterExcSpelt();
    StringIn(asm, names, m, 162, 0x542, AfterExc());
    GreetingSpelt();
    StringIn(asm, names, m, 163, GREETING, Greeting());
  }

  /** Statement k of the text writes a zero word at address a. */
  ghost predicate Zeroed(k: nat, a: u64) {
    forall x {:trigger Opened(x)} :: Opened(x) ==>
      k < STATEMENTS && Text(k).item == Write(Word, [Int(0)]) && Where(k) == a
  }

  lemma TableZeroed(w: nat)
    requires w < 48
    ensures Zeroed(2 + w, 8 * w)
  {
  }

  lemma ZeroIn(asm: Assembler, names: Names, m: Memory, k: nat, a: u64, i: nat)
    requires Hosts(asm, names, m) && Zeroed(k, a) && a <= i < a + 8
    ensures i < |m| && m[i] == 0
  {
    assert Opened(0);
    TextAt(names, k);
    StatementZero(asm, Example(), names, m, k, a, i);
  }

  lemma WordIn(asm: Assembler, names: Names, m: Memory, w: nat, i: nat)
    requires Hosts(asm, names, m) && w < 48 && 8 * w <= i < 8 * w + 8
    ensures i < |m| && m[i] == 0
  {
    TableZeroed(w);
    ZeroIn(asm, names, m, 2 + w, 8 * w, i);
  }

  lemma TableIn(asm: Assembler, names: Names, m: Memory, i: nat)
    requires Hosts(asm, names, m) && i < ECTABLE_SIZE
    ensures i < |m| && m[i] == 0
  {
    WordIn(asm, names, m, i / 8, i);
  }

  /** The assembled file in a memory of 16 MiB is all the proofs about the program suppose. */
  lemma TextIsProgram(asm: Assembler, dec: Decoder, names: Names, m: Memory)
    requires Hosts(asm, names, m) && Assembles(asm) && Emulates(dec) && Known(names) && 0x100_0000 <= |m|
    ensures ProgramAt(dec, m)
  {
    RoutineIn(asm, dec, names, m, Startup);
    RoutineIn(asm, dec, names, m, Vector);
    RoutineIn(asm, dec, names, m, PrintString);
    RoutineIn(asm, dec, names, m, PrintU64);
    RoutineIn(asm, dec, names, m, HandleUser);
    StringsIn(asm, names, m);
    forall i: nat | i < ECTABLE_SIZE ensures i < |m| && m[i] == 0 { TableIn(asm, names, m, i); }
  }

  /** n cycles do not panic and add exactly `text` to the console. */
  predicate Prints(dec: Decoder, s: State, n: nat, text: seq<byte>) {
    match Cycles(dec, s, n)
    case Next(t) => t.console == s.console + text
    case Panic => false
  }

  lemma HowLong(dec: Decoder, s: State, t: State) returns (n: nat)
    requires Reaches(dec, s, t)
    ensures Cycles(dec, s, n) == Next(t)
  {
    n :| Cycles(dec, s, n) == Next(t);
  }

  lemma Later(dec: Decoder, s: State, t: State, u: State, m: nat, n: nat)
    requires Cycles(dec, s, m) == Next(t) && Cycles(dec, t, n) == Next(u)
    ensures Cycles(dec, s, m + n) == Next(u)
  {
    RunTwice(x => Step(dec, x), Next(s), m, n);
  }

  lemma StillThere(dec: Decoder, s: State, t: State, cycles: nat, n: nat)
    requires Cycles(dec, s, cycles) == Next(t) && n >= cycles
    requires Startup in Routines(dec, t.mem) && t.ip == Base(Startup) + 40
    ensures Cycles(dec, s, n) == Next(t)
  {
    StaysInLoop(dec, t, n - cycles);
    Later(dec, s, t, t, cycles, n - cycles);
  }

  /** A program that prints and then stays in its loop has printed after any number of cycles
      that is large enough. */
  lemma PrintsAndStays(dec: Decoder, s: State) returns (cycles: nat)
    requires ProgramAt(dec, s.mem) && s.ip == 0x400 && !s.flags.pl1
    ensures forall n: nat :: n >= cycles ==> Prints(dec, s, n, Output())
  {
    var t := ProgramPrints(dec, s);
    cycles := HowLong(dec, s, t);
    forall n: nat | n >= cycles ensures Prints(dec, s, n, Output()) {
      StillThere(dec, s, t, cycles, n);
    }
  }

  // ------------------------------------------------------------ the theorems

  /** The text of the program. */
  function ExcItems(): seq<Item> {
    Program(Example())
  }

  /** It passes both passes of the assembler, and nothing in its file is written over. */
  lemma ExampleAssembles()
    ensures Placed(ExcItems(), |ExcItems()|).Ok? && ExampleNames() == Placed(ExcItems(), |ExcItems()|).value.names
    ensures Emitted(Assemble, ExcItems(), ExampleNames(), |ExcItems()|).Ok? && Ascending(ExcItems(), ExampleNames())
  {
    ExampleAccepted();
    NamesKnown();
    TextEmits(Assemble, ExampleNames());
  }

  /** From the text to the console: the example program, assembled and in the memory of a machine
      at its entry, prints its output within some number of cycles and nothing more after that. */
  lemma ExamplePrints(s: State) returns (cycles: nat)
    requires Built(Assemble, ExcItems(), ExampleNames(), s.mem) && 0x100_0000 <= |s.mem| && s.ip == 0x400
            && !s.flags.pl1
    ensures forall n: nat :: n >= cycles ==> Prints(D.Decode, s, n, Output())
  {
    ExampleAssembles();
    NamesKnown();
    TextIsProgram(Assemble, D.Decode, ExampleNames(), s.mem);
    cycles := PrintsAndStays(D.Decode, s);
  }

  lemma FileIsShort(asm: Assembler, names: Names)
    requires Emitted(asm, ExcItems(), names, |ExcItems()|).Ok? && Ascending(ExcItems(), names)
    ensures |Emitted(asm, ExcItems(), names, |ExcItems()|).value.file| <= 0x562
  {
    FileBelow(asm, ExcItems(), names, |ExcItems()|);
    EmittedAddress(asm, ExcItems(), names, |ExcItems()|);
    Addresses(STATEMENTS, names);
    ReachedIsAddress(Example(), names, STATEMENTS);
  }

  /** The assembled file. */
  ghost function ExampleFile(): (f: seq<byte>)
    ensures |f| <= 0x562
  {
    ExampleAssembles();
    FileIsShort(Assemble, ExampleNames());
    Emitted(Assemble, ExcItems(), ExampleNames(), |ExcItems()|).value.file
  }

  /** A machine of this size just created, with a file at the bottom of its memory. */
  function StartWith(size: u64, f: seq<byte>): State
    requires |f| <= size
  {
    Reset(size).(mem := f + Zeros(size - |f|))
  }

  ghost function BootState(size: u64): State
    requires 0x100_0000 <= size
  {
    StartWith(size, ExampleFile())
  }

  /** Both passes over the text. */
  method AssembleExample() returns (file: seq<byte>)
    ensures file == ExampleFile()
  {
    ExampleAssembles();
    var names := FirstPass(ExcItems());
    var output := SecondPass(Assemble, ExcItems(), names.value);
    file := output.value.file;
  }

  /** A new machine with a file in memory. */
  method StartMachine(size: u64, file: seq<byte>) returns (vm: V.VM)
    requires |file| <= size
    ensures vm.Valid() && fresh(vm) && fresh(vm.memory) && fresh(vm.registerFile)
    ensures vm.State() == StartWith(size, file)
  {
    vm := new V.VM(size);
    var loaded := Load(vm, file);
    FileFirst(file, vm.State().mem, size);
  }

  /** With the assembled file. */
  method Boot(size: u64) returns (vm: V.VM)
    requires 0x100_0000 <= size
    ensures vm.Valid() && fresh(vm) && fresh(vm.memory) && fresh(vm.registerFile)
    ensures vm.State() == BootState(size)
  {
    var file := AssembleExample();
    vm := StartMachine(size, file);
  }

  lemma FileFirst(f: seq<byte>, m: Memory, size: u64)
    requires |f| <= |m| == size && Extends(f, m) && m[|f|..] == Reset(size).mem[|f|..]
    ensures m == f + Zeros(size - |f|)
  {
    assert m == m[..|f|] + m[|f|..];
  }

  lemma StartBuilt(asm: Assembler, items: seq<Item>, names: Names, size: u64, f: seq<byte>)
    requires Emitted(asm, items, names, |items|).Ok? && f == Emitted(asm, items, names, |items|).value.file
    requires |f| <= size
    ensures Built(asm, items, names, StartWith(size, f).mem) && |StartWith(size, f).mem| == size
  {
  }

  ghost predicate PrintedFrom(size: u64, c: nat)
    requires 0x100_0000 <= size
  {
    forall k: nat :: k >= c ==> Prints(D.Decode, BootState(size), k, Output())
  }

  /** The run of a booted machine is determined: after a number of cycles it has printed the output
      of the program, and from then on nothing more. */
  lemma BootPrints(size: u64)
    requires 0x100_0000 <= size
    ensures exists c: nat :: PrintedFrom(size, c)
  {
    ExampleAssembles();
    StartBuilt(Assemble, ExcItems(), ExampleNames(), size, ExampleFile());
    var c := ExamplePrints(BootState(size));
    assert PrintedFrom(size, c);
  }

  /** How many cycles that takes; it depends on the size of the memory alone. */
  ghost function OutputTime(size: u64): (c: nat)
    requires 0x100_0000 <= size
    ensures PrintedFrom(size, c)
  {
    BootPrints(size);
    var c: nat :| PrintedFrom(size, c);
    c
  }

  /** A run that has printed after every large number of cycles never panics. */
  lemma NeverFails(dec: Decoder, s: State, cycles: nat, n: nat, text: seq<byte>)
    requires forall k: nat :: k >= cycles ==> Prints(dec, s, k, text)
    ensures Cycles(dec, s, n).Next?
  {
    assert Prints(dec, s, n + cycles, text);
    if Cycles(dec, s, n).Panic? { PanicIsFinal(dec, s, n, n + cycles); }
  }

  /** The tools themselves: the text assembled, a new machine, the file loaded into it, and n turns
      of the emulator's loop.  For every n nothing fails and the machine is where n cycles lead to
      from that start; from `OutputTime` on the console holds exactly the program's output. */
  method RunExample(size: u64, n: nat) returns (vm: V.VM, running: bool)
    requires 0x100_0000 <= size
    ensures vm.Valid() && fresh(vm)
    ensures running && Cycles(D.Decode, BootState(size), n) == Next(vm.State())
    ensures n >= OutputTime(size) ==> vm.State().console == Output()
  {
    vm := Boot(size);
    running := RunEmulator(vm, n);
    RunsOn(size, n);
    if n >= OutputTime(size) { Printed(D.Decode, BootState(size), n, Output(), vm.State()); }
  }

  /** A booted machine never panics. */
  lemma RunsOn(size: u64, n: nat)
    requires 0x100_0000 <= size
    ensures Cycles(D.Decode, BootState(size), n).Next?
    ensures n >= OutputTime(size) ==> Prints(D.Decode, BootState(size), n, Output())
  {
    assert PrintedFrom(size, OutputTime(size));
    NeverFails(D.Decode, BootState(size), OutputTime(size), n, Output());
  }

  lemma Printed(dec: Decoder, s: State, n: nat, text: seq<byte>, t: State)
    requires Prints(dec, s, n, text) && s.console == [] && Cycles(dec, s, n) == Next(t)
    ensures t.console == text
  {
  }
}
