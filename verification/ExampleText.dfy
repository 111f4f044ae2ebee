/** The source text of the example program, line by line. */
module ExampleText {
  import opened Bits
  import opened Isa
  import opened Expressions
  import opened Table
  import opened Operands
  import opened Layout
  import opened Statements
  import GuestHandler
  import GuestProgram

  // ---------------------------------------------------- ways to write a line

  function R(id: Reg): Arg {
    RegArg(SReg(id, None))
  }

  /** A register used as a byte. */
  function Rb(id: Reg): Arg {
    RegArg(SReg(id, Some(Byte)))
  }

  function N(v: u64): Arg {
    ImmArg(Int(v))
  }

  function Ref(name: string): Arg {
    ImmArg(Ident(name))
  }

  function Op(row: Row, args: seq<Arg>): Source {
    Source(row, None, None, args)
  }

  function When(c: Condition, row: Row, args: seq<Arg>): Source {
    Source(row, Some(c), None, args)
  }

  function Code(labels: seq<string>, src: Source): Statement {
    Statement(labels, Instruction(src))
  }

  // ------------------------------------------------------------- the tables

  function Kind(i: nat): string {
    match i
    case 0 => "unknown"
    case 1 => "invalid_instr"
    case 2 => "debug"
    case 3 => "user"
    case 4 => "invalid_op"
    case 5 => "instr_load_err"
    case 6 => "data_load_err"
    case _ => "interrupt"
  }

  function Level(i: nat): string {
    if i < 8 then "_pl0" else "_pl1"
  }

  /** Entry i of a table: exceptions at PL0, then the same at PL1. */
  function EntryName(table: string, i: nat): string {
    table + Level(i) + "_" + Kind(i % 8)
  }

  /** The labels before entry i of a table. */
  function EctableLabels(i: nat): seq<string> {
    if i == 0 then ["ectable", "ectable_pl0", EntryName("ectable", 0)]
    else if i == 8 then ["ectable_pl1", EntryName("ectable", 8)]
    else [EntryName("ectable", i)]
  }

  /** Word w of the exception configuration table, three to an entry. */
  function EctableWord(w: nat): Statement {
    Statement(if w % 3 == 0 then EctableLabels(w / 3) else [], Write(Word, [Int(0)]))
  }

  function VectorLabels(i: nat): seq<string> {
    if i == 0 then ["evtable", "evtable_pl0"] else if i == 8 then ["evtable_pl1"] else []
  }

  /** Where vector i goes, and its instruction. */
  function VectorAddr(i: nat): Statement
    requires i < 16
  {
    Statement(VectorLabels(i), Addr(Int(0x200 + 0x20 * i)))
  }

  function VectorSource(i: nat): Source {
    if i == 3 then Op(RJmpr, [Ref("handle_exc_pl0_user")]) else Op(RUdf, [])
  }

  function VectorCode(i: nat): Statement {
    Code([EntryName("evtable", i)], VectorSource(i))
  }

  // ------------------------------------------------------------ the routines

  function StartupSource(k: nat): Source {
    match k
    case 0 => Op(RLdi, [R(SP), N(0x100), N(16), N(3)])
    case 1 => Op(RLdr, [R(9), Ref("ectable")])
    case 2 => Op(RStm, [N(7), R(9)])
    case 3 => Op(RLdr, [R(9), Ref("evtable")])
    case 4 => Op(RStm, [N(6), R(9)])
    case 5 => Op(RLdr, [R(0), Ref("hello_world_str")])
    case 6 => Op(RCallr, [Ref("print_string")])
    case 7 => Op(RExc, [N(0x1234)])
    case 8 => Op(RLdr, [R(0), Ref("after_exc_str")])
    case 9 => Op(RCallr, [Ref("print_string")])
    case _ => Op(RJmpr, [Ref("loop")])
  }

  function StartupLabels(k: nat): seq<string> {
    match k
    case 0 => ["entry"]
    case 10 => ["loop"]
    case _ => []
  }

  function PrintStringSource(k: nat): Source {
    match k
    case 0 => Op(RPushp, [R(FP), R(LR)])
    case 1 => Op(RCopy, [R(FP), R(SP)])
    case 2 => Op(RLds, [Rb(9), R(0)])
    case 3 => Op(RCmpImm, [Rb(9), N(0)])
    case 4 => When(Condition.Z, RJmpr, [Ref("print_string_loop_done")])
    case 5 => Op(RStm, [Ref("mreg_vm_console"), R(9)])
    case 6 => Op(RAddImm, [R(0), R(0), N(1)])
    case 7 => Op(RJmpr, [Ref("print_string_loop")])
    case 8 => Op(RCopy, [R(SP), R(FP)])
    case 9 => Op(RPopp, [R(FP), R(LR)])
    case _ => Op(RRet, [])
  }

  function PrintStringLabels(k: nat): seq<string> {
    match k
    case 0 => ["print_string"]
    case 2 => ["print_string_loop"]
    case 8 => ["print_string_loop_done"]
    case _ => []
  }

  function PrintU64Source(k: nat): Source {
    match k
    case 0 => Op(RPushp, [R(FP), R(LR)])
    case 1 => Op(RCopy, [R(FP), R(SP)])
    case 2 => Op(RSubImm, [R(SP), R(SP), N(32)])
    case 3 => Op(RCopy, [R(7), R(SP)])
    case 4 => Op(RLdi, [R(8), N(10), N(0), N(3)])
    case 5 => Op(RCmpImm, [R(0), N(0)])
    case 6 => When(Condition.NZ, RJmpr, [Ref("print_u64_loop")])
    case 7 => Op(RLdi, [R(9), N(0x30)])
    case 8 => Op(RStm, [Ref("mreg_vm_console"), R(9)])
    case 9 => Op(RJmpr, [Ref("print_u64_done")])
    case 10 => Op(RCmpImm, [R(0), N(0)])
    case 11 => When(Condition.Z, RJmpr, [Ref("print_u64_loop_done")])
    case 12 => Op(RDiv, [R(0), R(9), R(0), R(8)])
    case 13 => Op(RAddImm, [Rb(9), Rb(9), N(0x30)])
    case 14 => Op(RSts, [R(7), Rb(9)])
    case 15 => Op(RAddImm, [R(7), R(7), N(1)])
    case 16 => Op(RJmpr, [Ref("print_u64_loop")])
    case 17 => Op(RSubImm, [R(7), R(7), N(1)])
    case 18 => Op(RLds, [Rb(9), R(7)])
    case 19 => Op(RStm, [Ref("mreg_vm_console"), R(9)])
    case 20 => Op(RCmpReg, [R(7), R(SP)])
    case 21 => When(Condition.Z, RJmpr, [Ref("print_u64_done")])
    case 22 => Op(RJmpr, [Ref("print_u64_char_loop")])
    case 23 => Op(RCopy, [R(SP), R(FP)])
    case 24 => Op(RPopp, [R(FP), R(LR)])
    case _ => Op(RRet, [])
  }

  function PrintU64Labels(k: nat): seq<string> {
    match k
    case 0 => ["print_u64"]
    case 10 => ["print_u64_loop"]
    case 17 => ["print_u64_loop_done", "print_u64_char_loop"]
    case 23 => ["print_u64_done"]
    case _ => []
  }

  function HandleUserSource(k: nat): Source {
    match k
    case 0 => Op(RPushp, [R(0), R(1)])
    case 1 => Op(RPushp, [R(2), R(3)])
    case 2 => Op(RPushp, [R(4), R(5)])
    case 3 => Op(RPushp, [R(6), R(7)])
    case 4 => Op(RPushp, [R(8), R(9)])
    case 5 => Op(RPushp, [R(10), R(11)])
    case 6 => Op(RPushp, [R(12), R(13)])
    case 7 => Op(RPushp, [R(14), R(15)])
    case 8 => Op(RLdm, [R(7), N(4)])
    case 9 => Source(RAndImm, None, Some(Byte), [R(9), R(7), N(7)])
    case 10 => Op(RCmpImm, [Rb(9), N(3)])
    case 11 => When(Condition.Z, RJmpr, [Ref("handle_exc_pl0_user_valid_exc_id")])
    case 12 => Op(RUdf, [])
    case 13 => Op(RShr, [R(8), R(7), N(3)])
    case 14 => Op(RLdr, [R(0), Ref("user_value_str")])
    case 15 => Op(RCallr, [Ref("print_string")])
    case 16 => Op(RCopy, [R(0), R(8)])
    case 17 => Op(RCallr, [Ref("print_u64")])
    case 18 => Op(RLdi, [R(9), N(0x0a)])
    case 19 => Op(RStm, [Ref("mreg_vm_console"), R(9)])
    case 20 => Op(RPopp, [R(14), R(15)])
    case 21 => Op(RPopp, [R(12), R(13)])
    case 22 => Op(RPopp, [R(10), R(11)])
    case 23 => Op(RPopp, [R(8), R(9)])
    case 24 => Op(RPopp, [R(6), R(7)])
    case 25 => Op(RPopp, [R(4), R(5)])
    case 26 => Op(RPopp, [R(2), R(3)])
    case 27 => Op(RPopp, [R(0), R(1)])
    case _ => Op(REret, [])
  }

  function HandleUserLabels(k: nat): seq<string> {
    match k
    case 0 => ["handle_exc_pl0_user"]
    case 12 => ["handle_exc_pl0_user_invalid_exc_id"]
    case 13 => ["handle_exc_pl0_user_valid_exc_id"]
    case _ => []
  }

  // ------------------------------------------------------------- the strings

  /** A string with its final zero, byte by byte. */
  function Bytes(str: seq<byte>): seq<Expr> {
    seq(|str| + 1, i requires 0 <= i <= |str| => if i < |str| then Int(str[i]) else Int(0))
  }

  function StringText(i: nat): Statement {
    match i
    case 0 => Statement(["hello_world_str"], Write(Byte, Bytes(GuestProgram.Hello())))
    case 1 => Statement(["after_exc_str"], Write(Byte, Bytes(GuestProgram.AfterExc())))
    case _ => Statement(["user_value_str"], Write(Byte, Bytes(GuestHandler.Greeting())))
  }

  // --------------------------------------------------------- the whole text

  const STATEMENTS: nat := 164

  function Text(k: nat): Statement {
    if k == 0 then Statement([], Def("mreg_vm_console", Int(0xdead1)))
    else if k == 1 then Statement([], Addr(Int(0)))
    else if k < 50 then EctableWord(k - 2)
    else if k == 50 then Statement([], Addr(Int(0x200)))
    else if k < 83 then (if k % 2 == 1 then VectorAddr((k - 51) / 2) else VectorCode((k - 52) / 2))
    else if k == 83 then Statement([], Addr(Int(0x400)))
    else if k < 95 then Code(StartupLabels(k - 84), StartupSource(k - 84))
    else if k < 106 then Code(PrintStringLabels(k - 95), PrintStringSource(k - 95))
    else if k < 132 then Code(PrintU64Labels(k - 106), PrintU64Source(k - 106))
    else if k < 161 then Code(HandleUserLabels(k - 132), HandleUserSource(k - 132))
    else StringText(k - 161)
  }

  function Example(): seq<Statement> {
    seq(STATEMENTS, k requires 0 <= k < STATEMENTS => Text(k))
  }
}
