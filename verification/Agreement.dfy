/** The two passes of the assembler agree on every address. */
module Agreement {
  import opened Bits
  import opened Isa
  import opened Expressions
  import opened Operands
  import opened Layout
  import opened Table

  /** The name an item binds. */
  function Binds(item: Item): Option<string> {
    match item
    case Label(name) => Some(name)
    case Def(name, _) => Some(name)
    case _ => None
  }

  /** No name is bound twice, by labels or `.def`. */
  predicate BoundOnce(items: seq<Item>) {
    forall i, j :: 0 <= i < j < |items| && Binds(items[i]).Some? ==> Binds(items[i]) != Binds(items[j])
  }

  /** The first pass knows only names bound by the items it has seen. */
  lemma {:induction false} KnownNames(items: seq<Item>, k: nat, n: string)
    requires k <= |items| && Placed(items, k).Ok? && n in Placed(items, k).value.names
    ensures exists i :: 0 <= i < k && Binds(items[i]) == Some(n)
  {
    if k > 0 && Binds(items[k - 1]) != Some(n) { KnownNames(items, k - 1, n); }
  }

  lemma NamesGrowOnce(items: seq<Item>, k: nat)
    requires k < |items| && Placed(items, k + 1).Ok? && BoundOnce(items)
    ensures Within(Placed(items, k).value.names, Placed(items, k + 1).value.names)
  {
    var before, after := Placed(items, k).value.names, Placed(items, k + 1).value.names;
    forall n | n in before ensures n in after && after[n] == before[n] {
      KnownNames(items, k, n);
    }
  }

  lemma {:induction false} NamesGrow(items: seq<Item>, i: nat, k: nat)
    requires i <= k <= |items| && Placed(items, k).Ok? && BoundOnce(items)
    ensures Placed(items, i).Ok? && Within(Placed(items, i).value.names, Placed(items, k).value.names)
    decreases k - i
  {
    if i < k {
      NamesGrow(items, i, k - 1);
      NamesGrowOnce(items, k - 1);
    }
  }

  /** The first pass may be ahead of the second only between a label and the instruction it
      marks, where it has already aligned. */
  predicate InStep(items: seq<Item>, k: nat, first: u64, second: u64)
    requires k <= |items|
  {
    first == second || (k > 0 && items[k - 1].Label? && InstructionFollows(items, k) && first == Align(second))
  }

  lemma {:induction false} AcceptedSoFar(items: seq<Item>, i: nat, k: nat)
    requires i <= k <= |items| && Placed(items, k).Ok?
    ensures Placed(items, i).Ok?
    decreases k - i
  {
    if i < k { AcceptedSoFar(items, i, k - 1); }
  }

  /** After k items both passes are at the same address, up to the alignment of labels. */
  predicate AgreeAt(items: seq<Item>, names: Names, k: nat)
    requires k <= |items| && Placed(items, k).Ok?
  {
    && Address(items, names, k).Ok?
    && InStep(items, k, Placed(items, k).value.addr, Address(items, names, k).value)
    && (k > 0 && !items[k - 1].Label? ==> Placed(items, k).value.addr == Address(items, names, k).value)
  }

  /** The passes agree before every item and at the end. */
  predicate PassesAgree(items: seq<Item>)
    requires Placed(items, |items|).Ok?
  {
    forall k: nat :: k <= |items| && Placed(items, k).Ok? ==> AgreeAt(items, Placed(items, |items|).value.names, k)
  }

  /** The target of an `.addr` is the same with all names known as it was when the first pass
      met it. */
  predicate SameTarget(items: seq<Item>, names: Names, k: nat)
    requires k < |items| && Placed(items, k).Ok?
  {
    items[k].Addr? ==>
      Eval(items[k].e, names, Placed(items, k).value.addr)
          == Eval(items[k].e, Placed(items, k).value.names, Placed(items, k).value.addr)
  }

  predicate SameTargets(items: seq<Item>)
    requires Placed(items, |items|).Ok?
  {
    forall k: nat :: k < |items| && Placed(items, k).Ok? ==> SameTarget(items, Placed(items, |items|).value.names, k)
  }

  /** Before anything but a label or an instruction the passes are together. */
  lemma Together(items: seq<Item>, names: Names, k: nat)
    requires k < |items| && Placed(items, k).Ok? && AgreeAt(items, names, k)
    requires !items[k].Label? && !items[k].Instruction?
    ensures Placed(items, k).value.addr == Address(items, names, k).value
  {
  }

  lemma AddrStep(items: seq<Item>, names: Names, k: nat)
    requires k < |items| && Placed(items, k + 1).Ok? && Placed(items, k).Ok? && items[k].Addr?
    requires AgreeAt(items, names, k)
    ensures AgreeAt(items, names, k + 1) <==> SameTarget(items, names, k)
  {
    Together(items, names, k);
  }

  lemma SamePlace(first: u64, second: u64)
    requires first == second || first == Align(second)
    ensures Align(first) == Align(second) && AfterInstruction(first) == AfterInstruction(second)
  {
    AlignTwice(second);
  }

  lemma InstructionStep(items: seq<Item>, names: Names, k: nat)
    requires k < |items| && Placed(items, k + 1).Ok? && Placed(items, k).Ok? && items[k].Instruction?
    requires AgreeAt(items, names, k)
    ensures AgreeAt(items, names, k + 1)
  {
    SamePlace(Placed(items, k).value.addr, Address(items, names, k).value);
  }

  lemma LabelStays(items: seq<Item>, names: Names, k: nat)
    requires k < |items| && Placed(items, k + 1).Ok? && Placed(items, k).Ok? && items[k].Label?
    requires AgreeAt(items, names, k)
    ensures AgreeAt(items, names, k + 1)
  {
    SamePlace(Placed(items, k).value.addr, Address(items, names, k).value);
  }

  lemma AgreeStep(items: seq<Item>, names: Names, k: nat)
    requires k < |items| && Placed(items, k).Ok? && Placed(items, k + 1).Ok?
    requires AgreeAt(items, names, k)
    ensures AgreeAt(items, names, k + 1) <==> SameTarget(items, names, k)
  {
    match items[k]
    case Label(_) => LabelStays(items, names, k);
    case Instruction(_) => InstructionStep(items, names, k);
    case Addr(_) => AddrStep(items, names, k);
    case _ => Together(items, names, k);
  }

  lemma {:induction false} AgreeSoFar(items: seq<Item>, k: nat)
    requires k <= |items| && Placed(items, |items|).Ok? && SameTargets(items)
    ensures Placed(items, k).Ok? && AgreeAt(items, Placed(items, |items|).value.names, k)
  {
    AcceptedSoFar(items, k, |items|);
    if k > 0 {
      AgreeSoFar(items, k - 1);
      AgreeStep(items, Placed(items, |items|).value.names, k - 1);
    }
  }

  /** Two-pass agreement, exactly: the second pass, which knows all names and does not align at
      labels, is at the address of the first after every item, but for the alignment of labels,
      if and only if every `.addr` still has the target the first pass gave it. */
  lemma AgreeExactly(items: seq<Item>)
    requires Placed(items, |items|).Ok?
    ensures PassesAgree(items) <==> SameTargets(items)
  {
    if SameTargets(items) {
      forall k: nat | k <= |items| && Placed(items, k).Ok?
          ensures AgreeAt(items, Placed(items, |items|).value.names, k) {
        AgreeSoFar(items, k);
      }
    }
    if PassesAgree(items) {
      forall k: nat | k < |items| && Placed(items, k).Ok?
          ensures SameTarget(items, Placed(items, |items|).value.names, k) {
        AcceptedSoFar(items, k + 1, |items|);
        AgreeStep(items, Placed(items, |items|).value.names, k);
      }
    }
  }

  /** When no name is bound twice every target stays, whatever the expressions. */
  lemma BoundOnceTargets(items: seq<Item>)
    requires BoundOnce(items) && Placed(items, |items|).Ok?
    ensures SameTargets(items)
  {
    var names := Placed(items, |items|).value.names;
    forall k: nat | k < |items| && Placed(items, k).Ok? ensures SameTarget(items, names, k) {
      NamesGrow(items, k, |items|);
      NamesGrow(items, k + 1, |items|);
      if items[k].Addr? { EvalStable(items[k].e, Placed(items, k).value.names, names, Placed(items, k).value.addr); }
    }
  }

  /** So such a program agrees before every directive and after every item but labels. */
  lemma TwoPassesAgree(items: seq<Item>, k: nat)
    requires k <= |items| && BoundOnce(items) && Placed(items, |items|).Ok?
    ensures Placed(items, k).Ok? && AgreeAt(items, Placed(items, |items|).value.names, k)
    ensures k < |items| && !items[k].Label? && !items[k].Instruction? ==>
              Placed(items, k).value.addr == Address(items, Placed(items, |items|).value.names, k).value
  {
    BoundOnceTargets(items);
    AgreeSoFar(items, k);
  }

  /** Wherever the passes agree, an address expression means the same in both, `$` included. */
  lemma SameValues(items: seq<Item>, k: nat)
    requires k < |items| && Placed(items, |items|).Ok? && PassesAgree(items) && items[k].Addr?
    ensures Placed(items, k).Ok?
    ensures var names := Placed(items, |items|).value.names;
            && Address(items, names, k).Ok?
            && Eval(items[k].e, Placed(items, k).value.names, Placed(items, k).value.addr)
               == Eval(items[k].e, names, Address(items, names, k).value)
            && Eval(items[k].e, names, Address(items, names, k).value).Ok?
  {
    AgreeExactly(items);
    AcceptedSoFar(items, k, |items|);
    AcceptedSoFar(items, k + 1, |items|);
    assert SameTarget(items, Placed(items, |items|).value.names, k);
    assert AgreeAt(items, Placed(items, |items|).value.names, k);
  }

  /** Items i to j - 1 are labels. */
  predicate Labels(items: seq<Item>, i: nat, j: nat)
    requires j <= |items|
  {
    forall k :: i <= k < j ==> items[k].Label?
  }

  lemma {:induction false} SameThroughLabels(items: seq<Item>, names: Names, i: nat, j: nat)
    requires i <= j <= |items| && Labels(items, i, j) && Address(items, names, i).Ok?
    ensures Address(items, names, j) == Address(items, names, i)
    decreases j - i
  {
    if i < j { SameThroughLabels(items, names, i, j - 1); }
  }

  lemma LabelBound(items: seq<Item>, i: nat)
    requires i < |items| && items[i].Label? && Placed(items, i + 1).Ok?
    ensures Placed(items, i).Ok? && items[i].name in Placed(items, i + 1).value.names
    ensures Placed(items, i + 1).value.names[items[i].name] ==
            if InstructionFollows(items, i + 1) then Align(Placed(items, i).value.addr) else Placed(items, i).value.addr
  {
  }

  /** Before a label the passes agree on the place of the item the labels lead to. */
  lemma InStepAtLabel(items: seq<Item>, i: nat, j: nat, first: u64, second: u64)
    requires i < j < |items| && Labels(items, i, j) && !items[j].Label? && InStep(items, i, first, second)
    ensures InstructionFollows(items, i + 1) <==> items[j].Instruction?
    ensures if items[j].Instruction? then Align(first) == Align(second) else first == second
  {
    FollowsLabels(items, i, j);
    if items[j].Instruction? { SamePlace(first, second); }
  }

  /** The first pass gives label i the place of the item the labels lead to. */
  lemma LabelPlace(items: seq<Item>, names: Names, i: nat, j: nat)
    requires i < j < |items| && Labels(items, i, j) && !items[j].Label?
    requires Placed(items, i + 1).Ok? && Address(items, names, i).Ok?
    requires InStep(items, i, Placed(items, i).value.addr, Address(items, names, i).value)
    ensures items[i].name in Placed(items, i + 1).value.names
    ensures Placed(items, i + 1).value.names[items[i].name] ==
            if items[j].Instruction? then Align(Address(items, names, i).value) else Address(items, names, i).value
  {
    LabelBound(items, i);
    InStepAtLabel(items, i, j, Placed(items, i).value.addr, Address(items, names, i).value);
  }

  /** A label is the address of what it marks: the place of the next instruction, or of the
      next directive, as the second pass sees it. */
  lemma LabelIsAddress(items: seq<Item>, i: nat, j: nat)
    requires i < j < |items| && Labels(items, i, j) && !items[j].Label?
    requires BoundOnce(items) && Placed(items, |items|).Ok?
    ensures var names := Placed(items, |items|).value.names;
            && Address(items, names, j).Ok?
            && items[i].name in names
            && names[items[i].name] ==
               if items[j].Instruction? then Align(Address(items, names, j).value) else Address(items, names, j).value
  {
    var names := Placed(items, |items|).value.names;
    TwoPassesAgree(items, i);
    NamesGrow(items, i + 1, |items|);
    SameThroughLabels(items, names, i, j);
    LabelPlace(items, names, i, j);
  }

  /** The same for a label given by name, at a known address. */
  lemma LabelWorth(items: seq<Item>, names: Names, i: nat, j: nat, name: string, a: u64)
    requires BoundOnce(items) && Placed(items, |items|).Ok? && names == Placed(items, |items|).value.names
    requires i < j < |items| && items[i] == Label(name) && Labels(items, i, j) && !items[j].Label?
    requires Address(items, names, j) == Ok(a)
    ensures name in names && names[name] == if items[j].Instruction? then Align(a) else a
  {
    LabelIsAddress(items, i, j);
  }

  /** A `.def` is worth what its expression means with all names known, at its own place in the
      second pass. */
  lemma DefIsValue(items: seq<Item>, i: nat)
    requires i < |items| && items[i].Def? && BoundOnce(items) && Placed(items, |items|).Ok?
    ensures var names := Placed(items, |items|).value.names;
            && Address(items, names, i).Ok? && items[i].name in names
            && Eval(items[i].e, names, Address(items, names, i).value) == Ok(names[items[i].name])
  {
    var names := Placed(items, |items|).value.names;
    TwoPassesAgree(items, i);
    NamesGrow(items, i, |items|);
    NamesGrow(items, i + 1, |items|);
    EvalStable(items[i].e, Placed(items, i).value.names, names, Placed(items, i).value.addr);
  }

  lemma {:induction false} NameStays(items: seq<Item>, i: nat, k: nat, name: string)
    requires i < k <= |items| && Binds(items[i]) == Some(name) && Placed(items, k).Ok?
    ensures name in Placed(items, k).value.names
    decreases k
  {
    if i < k - 1 { NameStays(items, i, k - 1, name); }
  }

  /** A label whose name is already bound, by a label or by `.def`, is an error, and nothing else a
      label does is. */
  lemma LabelFails(items: seq<Item>, j: nat)
    requires j < |items| && items[j].Label? && Placed(items, j).Ok?
    ensures Placed(items, j + 1).Err? <==> exists i :: 0 <= i < j && Binds(items[i]) == Some(items[j].name)
    ensures Placed(items, j + 1).Err? ==> Placed(items, j + 1) == Err(DuplicateLabel(items[j].name))
                                          && Placed(items, |items|) == Placed(items, j + 1)
  {
    var name := items[j].name;
    if i: nat :| i < j && Binds(items[i]) == Some(name) { NameStays(items, i, j, name); }
    if name in Placed(items, j).value.names { KnownNames(items, j, name); }
    if Placed(items, j + 1).Err? { FailureStays(items, j + 1, |items|); }
  }

  // --------------------------------------------- why names are bound once

  /** `.def x 0`, `.addr x`, an instruction, `.def x 8`. */
  function Redefining(nop: Source): seq<Item> {
    [Def("x", Int(0)), Addr(Ident("x")), Instruction(nop), Def("x", Int(8))]
  }

  /** A redefined name that moves an `.addr`: the first pass puts the instruction at 0, the
      second at 8, so the program fails the condition and the passes differ. */
  lemma RedefinitionDiverges(nop: Source)
    ensures Placed(Redefining(nop), 4).Ok? && !SameTargets(Redefining(nop)) && !PassesAgree(Redefining(nop))
    ensures Placed(Redefining(nop), 2).Ok? && Placed(Redefining(nop), 2).value.addr == 0
    ensures Address(Redefining(nop), Placed(Redefining(nop), 4).value.names, 2) == Ok(8)
  {
    var items := Redefining(nop);
    assert Placed(items, 0) == Ok(Place(0, map[]));
    assert Placed(items, 1) == Ok(Place(0, map["x" := 0]));
    assert Placed(items, 2) == Ok(Place(0, map["x" := 0]));
    var p := Placed(items, 3).value;
    assert p.names == map["x" := 0];
    assert Placed(items, 4).value.names["x"] == 8;
    var names := Placed(items, 4).value.names;
    assert Address(items, names, 0) == Ok(0);
    assert Address(items, names, 1) == Ok(0);
    assert !SameTarget(items, names, 1);
    AgreeExactly(items);
  }

  /** `.def x 0`, `.addr x`, an instruction, `.def x 0`. */
  function Repeating(nop: Source): seq<Item> {
    [Def("x", Int(0)), Addr(Ident("x")), Instruction(nop), Def("x", Int(0))]
  }

  /** Binding a name twice is not what makes the passes differ. */
  lemma RepetitionAgrees(nop: Source)
    ensures !BoundOnce(Repeating(nop)) && Placed(Repeating(nop), 4).Ok? && PassesAgree(Repeating(nop))
  {
    var items := Repeating(nop);
    assert Binds(items[0]) == Binds(items[3]);
    assert Placed(items, 0) == Ok(Place(0, map[]));
    assert Placed(items, 1) == Ok(Place(0, map["x" := 0]));
    assert Placed(items, 2) == Ok(Place(0, map["x" := 0]));
    assert Placed(items, 3).value.names == map["x" := 0];
    assert Placed(items, 4).value.names == map["x" := 0];
    AgreeExactly(items);
  }
}
