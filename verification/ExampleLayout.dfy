/** Where the statements of the example program stand, and what its names are worth. */
module ExampleLayout {
  import opened Bits
  import opened Isa
  import opened Machine
  import opened Expressions
  import opened Operands
  import opened Layout
  import opened Agreement
  import opened Statements
  import opened ExampleText
  import GuestHandler
  import GuestProgram

  // -------------------------------------------------------------- addresses

  /** The address before statement k. */
  function Where(k: nat): u64
    requires k <= STATEMENTS
  {
    if k < 2 then 0
    else if k <= 50 then 8 * (k - 2)
    else if k == 51 then 0x200
    else if k <= 83 then (if k % 2 == 0 then 0x200 + 0x10 * (k - 52) else 0x204 + 0x10 * (k - 53))
    else if k <= 161 then 0x400 + 4 * (k - 84)
    else if k == 162 then 0x542
    else if k == 163 then 0x54d
    else 0x562
  }

  lemma NextInstruction(a: u64)
    requires a % 4 == 0 && a + 4 < W64
    ensures Align(a) == a && AfterInstruction(a) == a + 4
  {
    Aligned(a);
    Small64(Align(a) + 4);
  }

  lemma TableStep(k: nat, names: Names)
    requires k < 51
    ensures NextAddress(Text(k).item, names, Where(k)) == Ok(Where(k + 1))
  {
    if 2 <= k < 50 { Small64(Where(k) + 8); }
  }

  lemma VectorStep(k: nat, names: Names, v: nat)
    requires k == 52 + 2 * v && v < 16
    ensures NextAddress(Text(k).item, names, Where(k)) == Ok(Where(k + 1))
  {
    CodeStep(Text(k).item, names, Where(k));
  }

  lemma PlaceStep(k: nat, names: Names, v: nat)
    requires k == 51 + 2 * v && v <= 16
    ensures NextAddress(Text(k).item, names, Where(k)) == Ok(Where(k + 1))
  {
  }

  lemma CodeStep(item: Item, names: Names, a: u64)
    requires item.Instruction? && a % 4 == 0 && a + 4 < W64
    ensures NextAddress(item, names, a) == Ok(a + 4)
  {
    NextInstruction(a);
  }

  lemma RoutineStep(k: nat, names: Names)
    requires 84 <= k < 161
    ensures NextAddress(Text(k).item, names, Where(k)) == Ok(Where(k + 1))
  {
    CodeStep(Text(k).item, names, Where(k));
  }

  lemma StringStep(k: nat, names: Names)
    requires 161 <= k < 164
    ensures NextAddress(Text(k).item, names, Where(k)) == Ok(Where(k + 1))
  {
    var vals := Text(k).item.vals;
    assert |vals| == if k == 161 then 14 else if k == 162 then 11 else 21;
    Small64(Where(k) + |vals|);
  }

  lemma NextWhere(k: nat, names: Names)
    requires k < STATEMENTS
    ensures NextAddress(Text(k).item, names, Where(k)) == Ok(Where(k + 1))
  {
    if k < 51 {
      TableStep(k, names);
    } else if k < 84 {
      if k % 2 == 0 { VectorStep(k, names, (k - 52) / 2); } else { PlaceStep(k, names, (k - 51) / 2); }
    } else if k < 161 {
      RoutineStep(k, names);
    } else {
      StringStep(k, names);
    }
  }

  /** Whatever the names, the program is laid out like this: no address depends on one. */
  lemma {:induction false} Addresses(k: nat, names: Names)
    requires k <= STATEMENTS
    ensures Reached(Example(), names, k) == Ok(Where(k))
  {
    if k > 0 {
      Addresses(k - 1, names);
      assert Example()[k - 1] == Text(k - 1);
      NextWhere(k - 1, names);
    }
  }

  // ------------------------------------------------------------------ names

  function KindOf(length: nat, first: char): nat {
    match length
    case 7 => 0
    case 13 => if first == 'i' then 1 else 6
    case 5 => 2
    case 4 => 3
    case 10 => 4
    case 14 => 5
    case _ => 7
  }

  /** Names in the order they are bound, told apart by length and a few characters. */
  function Rank(s: string): nat {
    if |s| < 4 then 0
    else if s[0] == 'e' && |s| >= 16 then
      var entry := (if s[10] == '0' then 0 else 8) + KindOf(|s| - 12, s[12]);
      if s[1] == 'c' then 4 * (2 + 3 * entry) + (if entry == 0 then 2 else if entry == 8 then 1 else 0)
      else 4 * (52 + 2 * entry)
    else if s[0] == 'e' && |s| == 11 then
      if s[1] == 'c' then (if s[10] == '0' then 9 else 104) else (if s[10] == '0' then 205 else 268)
    else if s[0] == 'e' && |s| == 7 then (if s[1] == 'c' then 8 else 204)
    else if s[0] == 'e' then 336
    else if s[0] == 'm' then 0
    else if s[0] == 'l' then 4 * 94
    else if s[0] == 'a' then 4 * 162
    else if s[0] == 'u' then 4 * 163
    else if s[0] == 'h' then
      match |s|
      case 15 => 4 * 161
      case 19 => 4 * 132
      case 34 => 4 * 144
      case _ => 4 * 145
    else
      match |s|
      case 12 => 4 * 95
      case 17 => 4 * 97
      case 22 => 4 * 103
      case 9 => 4 * 106
      case 14 => if s[10] == 'l' then 4 * 116 else 4 * 129
      case _ => if |s| > 10 && s[10] == 'l' then 4 * 123 else 4 * 123 + 1
  }

  lemma KindLength(i: nat)
    requires i < 8
    ensures 4 <= |Kind(i)| <= 14 && KindOf(|Kind(i)|, Kind(i)[0]) == i
  {
  }

  lemma EntryRank(table: string, i: nat)
    requires i < 16 && |table| == 7 && table[0] == 'e'
    ensures Rank(EntryName(table, i)) ==
            if table[1] == 'c' then 4 * (2 + 3 * i) + (if i == 0 then 2 else if i == 8 then 1 else 0)
                else 4 * (52 + 2 * i)
  {
    KindLength(i % 8);
    var s := EntryName(table, i);
    assert |s| == 12 + |Kind(i % 8)| && s[0] == table[0] && s[1] == table[1];
    assert s[10] == Level(i)[3] && s[12] == Kind(i % 8)[0];
  }

  lemma EctableRanked(k: nat)
    requires 2 <= k < 50
    ensures Ranked(Text(k), k, Rank)
  {
    var i := (k - 2) / 3;
    EntryRank("ectable", i);
    assert (k - 2) % 3 == 0 ==> k == 2 + 3 * i;
  }

  lemma EvtableRanked(k: nat)
    requires 51 <= k < 83
    ensures Ranked(Text(k), k, Rank)
  {
    if k % 2 == 0 { EntryRank("evtable", (k - 52) / 2); }
  }

  lemma StartupRanked(k: nat)
    requires k < 11
    ensures Ranked(Code(StartupLabels(k), StartupSource(k)), 84 + k, Rank)
  {
  }

  lemma PrintStringRanked(k: nat)
    requires k < 11
    ensures Ranked(Code(PrintStringLabels(k), PrintStringSource(k)), 95 + k, Rank)
  {
  }

  lemma PrintU64Ranked(k: nat)
    requires k < 26
    ensures Ranked(Code(PrintU64Labels(k), PrintU64Source(k)), 106 + k, Rank)
  {
  }

  lemma HandleUserRanked(k: nat)
    requires k < 29
    ensures Ranked(Code(HandleUserLabels(k), HandleUserSource(k)), 132 + k, Rank)
  {
  }

  lemma StringRanked(i: nat)
    requires i < 3
    ensures Ranked(StringText(i), 161 + i, Rank)
  {
  }

  lemma TextRanked(k: nat)
    requires k < STATEMENTS
    ensures Ranked(Text(k), k, Rank)
  {
    if k < 2 || k == 50 || k == 83 { }
    else if k < 50 { EctableRanked(k); }
    else if k < 83 { EvtableRanked(k); }
    else if k < 95 { StartupRanked(k - 84); }
    else if k < 106 { PrintStringRanked(k - 95); }
    else if k < 132 { PrintU64Ranked(k - 106); }
    else if k < 161 { HandleUserRanked(k - 132); }
    else { StringRanked(k - 161); }
  }

  lemma TextLiteral(k: nat)
    requires k < STATEMENTS
    ensures Literal(Text(k).item) && !Text(k).item.Label?
  {
  }

  /** The first pass accepts the program; it binds no name twice. */
  lemma ExampleAccepted()
    ensures Plain(Example()) && BoundOnce(Program(Example()))
    ensures Placed(Program(Example()), |Program(Example())|).Ok?
  {
    forall k | 0 <= k < STATEMENTS
      ensures Literal(Example()[k].item) && !Example()[k].item.Label? && Ranked(Example()[k], k, Rank)
    {
      TextLiteral(k);
      TextRanked(k);
    }
    RankedOnce(Example(), Rank);
    LiteralItems(Example());
    Accepted(Program(Example()), |Program(Example())|);
  }

  function ExampleNames(): Names {
    ExampleAccepted();
    FinalNames(Example())
  }

  /** A label is worth the address of its statement. */
  lemma NameAt(k: nat, j: nat)
    requires k < STATEMENTS && j < |Text(k).labels| && (Text(k).item.Instruction? ==> Where(k) % 4 == 0)
    ensures Text(k).labels[j] in ExampleNames() && ExampleNames()[Text(k).labels[j]] == Where(k)
  {
    ExampleAccepted();
    Addresses(k, ExampleNames());
    assert Example()[k] == Text(k);
    LabelOf(Example(), Program(Example()), ExampleNames(), k, j, Where(k));
    if Text(k).item.Instruction? { Aligned(Where(k)); }
  }

  /** A name has a value. */
  predicate Worth(names: Names, name: string, v: u64) {
    name in names && names[name] == v
  }

  /** Label j of statement k is this name, at address a.  It opens by Opened. */
  ghost predicate Labelled(k: nat, j: nat, name: string, a: u64) {
    forall x {:trigger Opened(x)} :: Opened(x) ==>
      && k < STATEMENTS && j < |Text(k).labels| && Text(k).labels[j] == name
      && Where(k) == a && (Text(k).item.Instruction? ==> a % 4 == 0)
  }

  lemma LabelledWorth(k: nat, j: nat, name: string, a: u64)
    requires Labelled(k, j, name, a)
    ensures Worth(ExampleNames(), name, a)
  {
    assert Opened(0);
    NameAt(k, j);
  }

  lemma StartupLabelled(k: nat, j: nat, name: string, a: u64)
    requires k < 11 && j < |StartupLabels(k)| && StartupLabels(k)[j] == name && a == 0x400 + 4 * k
    ensures Labelled(84 + k, j, name, a)
  {
  }

  lemma StartupName(k: nat, j: nat, name: string, a: u64)
    requires k < 11 && j < |StartupLabels(k)| && StartupLabels(k)[j] == name && a == 0x400 + 4 * k
    ensures Worth(ExampleNames(), name, a)
  {
    StartupLabelled(k, j, name, a);
    LabelledWorth(84 + k, j, name, a);
  }

  lemma PrintStringLabelled(k: nat, j: nat, name: string, a: u64)
    requires k < 11 && j < |PrintStringLabels(k)| && PrintStringLabels(k)[j] == name && a == 0x42c + 4 * k
    ensures Labelled(95 + k, j, name, a)
  {
  }

  lemma PrintStringName(k: nat, j: nat, name: string, a: u64)
    requires k < 11 && j < |PrintStringLabels(k)| && PrintStringLabels(k)[j] == name && a == 0x42c + 4 * k
    ensures Worth(ExampleNames(), name, a)
  {
    PrintStringLabelled(k, j, name, a);
    LabelledWorth(95 + k, j, name, a);
  }

  lemma PrintU64Labelled(k: nat, j: nat, name: string, a: u64)
    requires k < 26 && j < |PrintU64Labels(k)| && PrintU64Labels(k)[j] == name && a == 0x458 + 4 * k
    ensures Labelled(106 + k, j, name, a)
  {
  }

  lemma PrintU64Name(k: nat, j: nat, name: string, a: u64)
    requires k < 26 && j < |PrintU64Labels(k)| && PrintU64Labels(k)[j] == name && a == 0x458 + 4 * k
    ensures Worth(ExampleNames(), name, a)
  {
    PrintU64Labelled(k, j, name, a);
    LabelledWorth(106 + k, j, name, a);
  }

  lemma HandleUserLabelled(k: nat, j: nat, name: string, a: u64)
    requires k < 29 && j < |HandleUserLabels(k)| && HandleUserLabels(k)[j] == name && a == 0x4c0 + 4 * k
    ensures Labelled(132 + k, j, name, a)
  {
  }

  lemma HandleUserName(k: nat, j: nat, name: string, a: u64)
    requires k < 29 && j < |HandleUserLabels(k)| && HandleUserLabels(k)[j] == name && a == 0x4c0 + 4 * k
    ensures Worth(ExampleNames(), name, a)
  {
    HandleUserLabelled(k, j, name, a);
    LabelledWorth(132 + k, j, name, a);
  }

  lemma TableNames()
    ensures Worth(ExampleNames(), "ectable", 0) && Worth(ExampleNames(), "evtable", 0x200)
  {
    NameAt(2, 0);
    NameAt(51, 0);
  }

  lemma PrintStringNamed()
    ensures PrintStringLabels(0) == ["print_string"] && PrintStringLabels(2) == ["print_string_loop"]
    ensures PrintStringLabels(8) == ["print_string_loop_done"]
  {
  }

  lemma PrintU64Named()
    ensures PrintU64Labels(0) == ["print_u64"] && PrintU64Labels(10) == ["print_u64_loop"]
    ensures PrintU64Labels(17) == ["print_u64_loop_done", "print_u64_char_loop"]
    ensures PrintU64Labels(23) == ["print_u64_done"]
  {
  }

  lemma HandleUserNamed()
    ensures HandleUserLabels(0) == ["handle_exc_pl0_user"]
    ensures HandleUserLabels(13) == ["handle_exc_pl0_user_valid_exc_id"]
    ensures StartupLabels(10) == ["loop"]
  {
  }

  lemma PrintNames()
    ensures Worth(ExampleNames(), "print_string", 0x42c)
    ensures Worth(ExampleNames(), "print_string_loop", 0x434) && Worth(ExampleNames(), "print_string_loop_done", 0x44c)
  {
    PrintStringNamed();
    PrintStringName(0, 0, "print_string", 0x42c);
    PrintStringName(2, 0, "print_string_loop", 0x434);
    PrintStringName(8, 0, "print_string_loop_done", 0x44c);
  }

  lemma DigitNames()
    ensures Worth(ExampleNames(), "print_u64", 0x458) && Worth(ExampleNames(), "print_u64_done", 0x4b4)
    ensures Worth(ExampleNames(), "print_u64_loop", 0x480) && Worth(ExampleNames(), "print_u64_loop_done", 0x49c)
    ensures Worth(ExampleNames(), "print_u64_char_loop", 0x49c)
  {
    PrintU64Named();
    PrintU64Name(0, 0, "print_u64", 0x458);
    PrintU64Name(10, 0, "print_u64_loop", 0x480);
    PrintU64Name(17, 0, "print_u64_loop_done", 0x49c);
    PrintU64Name(17, 1, "print_u64_char_loop", 0x49c);
    PrintU64Name(23, 0, "print_u64_done", 0x4b4);
  }

  lemma HandlerNames()
    ensures Worth(ExampleNames(), "handle_exc_pl0_user", 0x4c0)
    ensures Worth(ExampleNames(), "handle_exc_pl0_user_valid_exc_id", 0x4f4)
    ensures Worth(ExampleNames(), "loop", 0x428)
  {
    HandleUserNamed();
    HandleUserName(0, 0, "handle_exc_pl0_user", 0x4c0);
    HandleUserName(13, 0, "handle_exc_pl0_user_valid_exc_id", 0x4f4);
    StartupName(10, 0, "loop", 0x428);
  }

  lemma StringLabelled(i: nat, name: string, a: u64)
    requires i < 3 && StringText(i).labels == [name] && a == Where(161 + i)
    ensures Labelled(161 + i, 0, name, a)
  {
  }

  lemma StringName(i: nat, k: nat, name: string, a: u64)
    requires i < 3 && k == 161 + i && StringText(i).labels == [name] && a == Where(k)
    ensures Worth(ExampleNames(), name, a)
  {
    StringLabelled(i, name, a);
    LabelledWorth(k, 0, name, a);
  }

  lemma StringsNamed()
    ensures StringText(0).labels == ["hello_world_str"] && StringText(1).labels == ["after_exc_str"]
    ensures StringText(2).labels == ["user_value_str"]
    ensures Where(161) == 0x534 && Where(162) == 0x542 && Where(163) == 0x54d
  {
  }

  lemma HelloName()
    ensures Worth(ExampleNames(), "hello_world_str", 0x534)
  {
    StringsNamed();
    StringName(0, 161, "hello_world_str", 0x534);
  }

  lemma AfterExcName()
    ensures Worth(ExampleNames(), "after_exc_str", 0x542)
  {
    StringsNamed();
    StringName(1, 162, "after_exc_str", 0x542);
  }

  lemma UserValueName()
    ensures Worth(ExampleNames(), "user_value_str", 0x54d)
  {
    StringsNamed();
    StringName(2, 163, "user_value_str", 0x54d);
  }

  lemma ConsoleName()
    ensures Worth(ExampleNames(), "mreg_vm_console", 0xdead1)
  {
    ExampleAccepted();
    assert Example()[0] == Text(0);
    DefinedAs(Example(), 0);
  }
}
