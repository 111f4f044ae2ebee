/** Line by line, the text of the routines reads as the listing their proofs are about. */
module ExampleLines {
  import opened Bits
  import opened Isa
  import opened Expressions
  import opened ExampleText
  import opened ExampleLayout
  import opened ExampleMeaning
  import Guest

  lemma TableLines(names: Names, k: nat)
    requires Worth(names, "ectable", 0) && Worth(names, "evtable", 0x200) && k < 5
    ensures Reading(StartupSource(k), names, 0x400 + 4 * k) == Some(Guest.StartupLine(k))
  {
  }

  lemma StartupLines(names: Names, k: nat)
    requires Worth(names, "hello_world_str", 0x534) && Worth(names, "after_exc_str", 0x542)
    requires Worth(names, "print_string", 0x42c) && Worth(names, "loop", 0x428) && 5 <= k < 11
    ensures Reading(StartupSource(k), names, 0x400 + 4 * k) == Some(Guest.StartupLine(k))
  {
  }

  lemma PrintStringLines(names: Names, k: nat)
    requires Worth(names, "print_string_loop", 0x434) && Worth(names, "print_string_loop_done", 0x44c)
    requires Worth(names, "mreg_vm_console", 0xdead1) && k < 11
    ensures Reading(PrintStringSource(k), names, 0x42c + 4 * k) == Some(Guest.PrintStringLine(k))
  {
  }

  lemma PrintZeroLines(names: Names, k: nat)
    requires Worth(names, "print_u64_loop", 0x480) && Worth(names, "print_u64_done", 0x4b4)
    requires Worth(names, "mreg_vm_console", 0xdead1) && k < 10
    ensures Reading(PrintU64Source(k), names, 0x458 + 4 * k) == Some(Guest.PrintU64Line(k))
  {
  }

  lemma DigitLines(names: Names, k: nat)
    requires Worth(names, "print_u64_loop", 0x480) && Worth(names, "print_u64_loop_done", 0x49c) && 10 <= k < 17
    ensures Reading(PrintU64Source(k), names, 0x458 + 4 * k) == Some(Guest.PrintU64Line(k))
  {
  }

  lemma CharLines(names: Names, k: nat)
    requires Worth(names, "print_u64_done", 0x4b4) && Worth(names, "mreg_vm_console", 0xdead1) && 17 <= k < 22
    ensures Reading(PrintU64Source(k), names, 0x458 + 4 * k) == Some(Guest.PrintU64Line(k))
  {
  }

  lemma DoneLines(names: Names, k: nat)
    requires Worth(names, "print_u64_char_loop", 0x49c) && 22 <= k < 26
    ensures Reading(PrintU64Source(k), names, 0x458 + 4 * k) == Some(Guest.PrintU64Line(k))
  {
  }

  lemma SavingLines(names: Names, k: nat)
    requires k < 8
    ensures Reading(HandleUserSource(k), names, 0x4c0 + 4 * k) == Some(Guest.HandleUserLine(k))
  {
  }

  lemma CheckingLines(names: Names, k: nat)
    requires Worth(names, "handle_exc_pl0_user_valid_exc_id", 0x4f4) && 8 <= k < 13
    ensures Reading(HandleUserSource(k), names, 0x4c0 + 4 * k) == Some(Guest.HandleUserLine(k))
  {
  }

  lemma ReportingLines(names: Names, k: nat)
    requires Worth(names, "user_value_str", 0x54d) && Worth(names, "print_string", 0x42c)
            && Worth(names, "print_u64", 0x458)
    requires Worth(names, "mreg_vm_console", 0xdead1) && 13 <= k < 20
    ensures Reading(HandleUserSource(k), names, 0x4c0 + 4 * k) == Some(Guest.HandleUserLine(k))
  {
  }

  lemma RestoringLines(names: Names, k: nat)
    requires 20 <= k < 29
    ensures Reading(HandleUserSource(k), names, 0x4c0 + 4 * k) == Some(Guest.HandleUserLine(k))
  {
  }

  lemma VectorLines(names: Names, i: nat)
    requires Worth(names, "handle_exc_pl0_user", 0x4c0) && i < 16
    ensures Reading(VectorSource(i), names, 0x200 + 0x20 * i) == Some(if i == 3 then Jmpr(None, JumpRel(0x97)) else Udf)
  {
  }
}
