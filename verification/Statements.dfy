/**
 Programs as lists of statements, an instruction or directive with the labels in front of it.
 Addresses, labels and output of such a program are known statement by statement.
 */
module Statements {
  import opened Bits
  import opened Expressions
  import opened Operands
  import opened Layout
  import opened Agreement
  import opened Image

  datatype Statement = Statement(labels: seq<string>, item: Item)

  function LabelItems(labels: seq<string>): seq<Item> {
    seq(|labels|, j requires 0 <= j < |labels| => Label(labels[j]))
  }

  /** The first k statements as the assembler reads them. */
  function Items(sts: seq<Statement>, k: nat): seq<Item>
    requires k <= |sts|
  {
    if k == 0 then [] else Items(sts, k - 1) + LabelItems(sts[k - 1].labels) + [sts[k - 1].item]
  }

  function Program(sts: seq<Statement>): seq<Item> {
    Items(sts, |sts|)
  }

  predicate Plain(sts: seq<Statement>) {
    forall k :: 0 <= k < |sts| ==> !sts[k].item.Label?
  }

  /** Where the labels of statement k start. */
  function Start(sts: seq<Statement>, k: nat): nat
    requires k <= |sts|
  {
    |Items(sts, k)|
  }

  /** Where the item of statement k stands. */
  function Index(sts: seq<Statement>, k: nat): nat
    requires k < |sts|
  {
    Start(sts, k) + |sts[k].labels|
  }

  lemma {:induction false} Prefix(sts: seq<Statement>, k: nat, n: nat)
    requires k <= n <= |sts|
    ensures Items(sts, k) <= Items(sts, n)
    decreases n
  {
    if k < n { Prefix(sts, k, n - 1); }
  }

  /** Statement k in the program: its labels, then its item. */
  lemma StatementAt(sts: seq<Statement>, k: nat)
    requires k < |sts|
    ensures Index(sts, k) + 1 == Start(sts, k + 1) <= |Program(sts)|
    ensures Program(sts)[Index(sts, k)] == sts[k].item
    ensures forall j :: 0 <= j < |sts[k].labels| ==> Program(sts)[Start(sts, k) + j] == Label(sts[k].labels[j])
  {
    Prefix(sts, k + 1, |sts|);
    var items := Items(sts, k + 1);
    assert items[Index(sts, k)] == sts[k].item;
    forall j | 0 <= j < |sts[k].labels| ensures items[Start(sts, k) + j] == Label(sts[k].labels[j]) {
      assert LabelItems(sts[k].labels)[j] == Label(sts[k].labels[j]);
    }
  }

  lemma LabelsThere(sts: seq<Statement>, k: nat)
    requires k < |sts|
    ensures Index(sts, k) < |Program(sts)| && Labels(Program(sts), Start(sts, k), Index(sts, k))
  {
    StatementAt(sts, k);
    forall i | Start(sts, k) <= i < Index(sts, k) ensures Program(sts)[i].Label? {
      assert Program(sts)[Start(sts, k) + (i - Start(sts, k))] == Label(sts[k].labels[i - Start(sts, k)]);
    }
  }

  /** Every item belongs to a statement: it is one of its labels, or its item. */
  lemma {:induction false} Locate(sts: seq<Statement>, n: nat, i: nat) returns (k: nat, j: nat)
    requires n <= |sts| && i < Start(sts, n)
    ensures k < n && j <= |sts[k].labels| && i == Start(sts, k) + j
    decreases n
  {
    if i < Start(sts, n - 1) {
      k, j := Locate(sts, n - 1, i);
    } else {
      k, j := n - 1, i - Start(sts, n - 1);
    }
  }

  lemma {:induction false} StartsAscend(sts: seq<Statement>, k: nat, n: nat)
    requires k < n <= |sts|
    ensures Index(sts, k) < Start(sts, n)
    decreases n
  {
    if k < n - 1 { StartsAscend(sts, k, n - 1); }
  }

  // ------------------------------------------------------------- addresses

  /** The address before statement k. */
  function Reached(sts: seq<Statement>, names: Names, k: nat): Result<u64>
    requires k <= |sts|
  {
    if k == 0 then Ok(0)
    else var a :- Reached(sts, names, k - 1); NextAddress(sts[k - 1].item, names, a)
  }

  lemma {:induction false} ReachedIsAddress(sts: seq<Statement>, names: Names, k: nat)
    requires k <= |sts| && Reached(sts, names, k).Ok?
    ensures Start(sts, k) <= |Program(sts)| && Address(Program(sts), names, Start(sts, k)) == Reached(sts, names, k)
  {
    Prefix(sts, k, |sts|);
    if k > 0 {
      ReachedIsAddress(sts, names, k - 1);
      ItemAddress(sts, names, k - 1);
      NextReached(sts, names, k - 1);
    }
  }

  lemma NextReached(sts: seq<Statement>, names: Names, k: nat)
    requires k < |sts| && Index(sts, k) < |Program(sts)| && Reached(sts, names, k + 1).Ok?
    requires Address(Program(sts), names, Index(sts, k)) == Reached(sts, names, k)
    ensures Start(sts, k + 1) <= |Program(sts)|
    ensures Address(Program(sts), names, Start(sts, k + 1)) == Reached(sts, names, k + 1)
  {
    StatementAt(sts, k);
  }

  /** The address of the item of statement k. */
  lemma ItemAddress(sts: seq<Statement>, names: Names, k: nat)
    requires k < |sts| && Reached(sts, names, k).Ok?
    requires Start(sts, k) <= |Program(sts)| && Address(Program(sts), names, Start(sts, k)) == Reached(sts, names, k)
    ensures Index(sts, k) < |Program(sts)| && Address(Program(sts), names, Index(sts, k)) == Reached(sts, names, k)
  {
    LabelsThere(sts, k);
    SameThroughLabels(Program(sts), names, Start(sts, k), Index(sts, k));
  }

  lemma AddressOf(sts: seq<Statement>, names: Names, k: nat)
    requires k < |sts| && Reached(sts, names, k).Ok?
    ensures Index(sts, k) < |Program(sts)| && Program(sts)[Index(sts, k)] == sts[k].item
    ensures Address(Program(sts), names, Index(sts, k)) == Reached(sts, names, k)
  {
    ReachedIsAddress(sts, names, k);
    ItemAddress(sts, names, k);
    StatementAt(sts, k);
  }

  // ---------------------------------------------------------------- labels

  /** A rank for names, ascending from binding to binding, shows that none is bound twice. */
  predicate Ranked(st: Statement, k: nat, rank: string -> nat) {
    && |st.labels| <= 3
    && (forall j :: 0 <= j < |st.labels| ==> rank(st.labels[j]) == 4 * k + j)
    && (st.item.Def? ==> rank(st.item.name) == 4 * k + |st.labels|)
  }

  lemma BindingRank(sts: seq<Statement>, rank: string -> nat, i: nat) returns (k: nat, j: nat)
    requires i < |Program(sts)| && Plain(sts) && forall q :: 0 <= q < |sts| ==> Ranked(sts[q], q, rank)
    ensures k < |sts| && j <= |sts[k].labels| <= 3 && i == Start(sts, k) + j
    ensures Binds(Program(sts)[i]).Some? ==> rank(Binds(Program(sts)[i]).value) == 4 * k + j
  {
    k, j := Locate(sts, |sts|, i);
    StatementAt(sts, k);
    assert Ranked(sts[k], k, rank);
    if j < |sts[k].labels| { assert Program(sts)[Start(sts, k) + j] == Label(sts[k].labels[j]); }
  }

  lemma RankedOnce(sts: seq<Statement>, rank: string -> nat)
    requires Plain(sts) && forall k :: 0 <= k < |sts| ==> Ranked(sts[k], k, rank)
    ensures BoundOnce(Program(sts))
  {
    var items := Program(sts);
    forall i, i' | 0 <= i < i' < |items| && Binds(items[i]).Some? ensures Binds(items[i]) != Binds(items[i']) {
      var k, j := BindingRank(sts, rank, i);
      var k', j' := BindingRank(sts, rank, i');
      if k' < k { StartsAscend(sts, k', k); }
    }
  }

  /** Addresses and definitions that need no names. */
  predicate Literal(item: Item) {
    (item.Addr? || item.Def?) ==> item.e.Int?
  }

  /** The first pass accepts a program that binds no name twice and needs no names itself. */
  lemma {:induction false} Accepted(items: seq<Item>, k: nat)
    requires k <= |items| && BoundOnce(items) && forall i :: 0 <= i < |items| ==> Literal(items[i])
    ensures Placed(items, k).Ok?
  {
    if k > 0 {
      Accepted(items, k - 1);
      if items[k - 1].Label? && items[k - 1].name in Placed(items, k - 1).value.names {
        KnownNames(items, k - 1, items[k - 1].name);
      }
    }
  }

  lemma LiteralItems(sts: seq<Statement>)
    requires forall k :: 0 <= k < |sts| ==> Literal(sts[k].item)
    ensures forall i :: 0 <= i < |Program(sts)| ==> Literal(Program(sts)[i])
  {
    forall i | 0 <= i < |Program(sts)| ensures Literal(Program(sts)[i]) {
      var k, j := Locate(sts, |sts|, i);
      StatementAt(sts, k);
    }
  }

  /** The names the first pass knows in the end. */
  function FinalNames(sts: seq<Statement>): Names
    requires Placed(Program(sts), |Program(sts)|).Ok?
  {
    Placed(Program(sts), |Program(sts)|).value.names
  }

  /** A label of statement k is the address of its item, aligned if that is an instruction. */
  lemma LabelOf(sts: seq<Statement>, items: seq<Item>, names: Names, k: nat, j: nat, a: u64)
    requires items == Program(sts) && Plain(sts) && BoundOnce(items)
    requires Placed(items, |items|).Ok? && names == Placed(items, |items|).value.names
    requires k < |sts| && j < |sts[k].labels| && Reached(sts, names, k) == Ok(a)
    ensures sts[k].labels[j] in names
    ensures names[sts[k].labels[j]] == if sts[k].item.Instruction? then Align(a) else a
  {
    AddressOf(sts, names, k);
    LabelsThere(sts, k);
    LabelAt(sts, k, j);
    LabelWorth(items, names, Start(sts, k) + j, Index(sts, k), sts[k].labels[j], a);
  }

  lemma LabelAt(sts: seq<Statement>, k: nat, j: nat)
    requires k < |sts| && j < |sts[k].labels|
    ensures Start(sts, k) + j < |Program(sts)| && Program(sts)[Start(sts, k) + j] == Label(sts[k].labels[j])
  {
    StatementAt(sts, k);
  }

  /** A definition by a literal. */
  lemma DefinedAs(sts: seq<Statement>, k: nat)
    requires BoundOnce(Program(sts)) && Placed(Program(sts), |Program(sts)|).Ok?
    requires k < |sts| && sts[k].item.Def? && sts[k].item.e.Int?
    ensures sts[k].item.name in FinalNames(sts) && FinalNames(sts)[sts[k].item.name] == sts[k].item.e.v
  {
    StatementAt(sts, k);
    NamesGrow(Program(sts), Index(sts, k) + 1, |Program(sts)|);
    NamesGrow(Program(sts), Index(sts, k), |Program(sts)|);
  }

  // ---------------------------------------------------------------- output

  /** The second pass can write an item at an address, below the top of the address space. */
  ghost predicate Writable(asm: Assembler, item: Item, names: Names, a: u64) {
    && Ascends(item, names, a)
    && match item
       case Instruction(src) => asm(src, names, Align(a)).Ok?
       case Write(size, vals) => forall j :: 0 <= j < |vals| ==> Eval(vals[j], names, a).Ok?
       case Addr(e) => Eval(e, names, a).Ok?
       case _ => true
  }

  ghost predicate AllWritable(asm: Assembler, items: seq<Item>, names: Names) {
    forall i :: 0 <= i < |items| && Address(items, names, i).Ok?
        ==> Writable(asm, items[i], names, Address(items, names, i).value)
  }

  lemma {:induction false} ValuesOk(f: seq<byte>, a: u64, size: Isa.Size, vals: seq<Expr>, names: Names, j: nat)
    requires j <= |vals| && forall i :: 0 <= i < |vals| ==> Eval(vals[i], names, a).Ok?
    ensures WriteValues(f, a, size, vals, names, j).Ok?
    decreases j
  {
    if j > 0 { ValuesOk(f, a, size, vals, names, j - 1); }
  }

  lemma {:induction false} EmitsAll(asm: Assembler, items: seq<Item>, names: Names, k: nat)
    requires k <= |items| && AllWritable(asm, items, names)
    ensures Emitted(asm, items, names, k).Ok?
  {
    if k > 0 {
      EmitsAll(asm, items, names, k - 1);
      EmittedAddress(asm, items, names, k - 1);
      var p := Emitted(asm, items, names, k - 1).value;
      assert Writable(asm, items[k - 1], names, p.addr);
      if items[k - 1].Write? { ValuesOk(p.file, p.addr, items[k - 1].size, items[k - 1].vals, names,
          |items[k - 1].vals|); }
    }
  }

  lemma ItemWritable(asm: Assembler, sts: seq<Statement>, names: Names, i: nat, a: u64)
    requires Plain(sts) && i < |Program(sts)| && Address(Program(sts), names, i) == Ok(a)
    requires forall k :: 0 <= k < |sts| ==>
               Reached(sts, names, k).Ok? && Writable(asm, sts[k].item, names, Reached(sts, names, k).value)
    ensures Writable(asm, Program(sts)[i], names, a)
  {
    var k, j := Locate(sts, |sts|, i);
    LabelOrItem(sts, k, j);
    if j == |sts[k].labels| { AddressOf(sts, names, k); }
  }

  lemma LabelOrItem(sts: seq<Statement>, k: nat, j: nat)
    requires k < |sts| && j <= |sts[k].labels|
    ensures Start(sts, k) + j < |Program(sts)|
    ensures if j < |sts[k].labels| then Program(sts)[Start(sts, k) + j].Label?
            else Program(sts)[Start(sts, k) + j] == sts[k].item
  {
    StatementAt(sts, k);
    if j < |sts[k].labels| { assert Program(sts)[Start(sts, k) + j] == Label(sts[k].labels[j]); }
  }

  /** Statements that can all be written make a program that assembles and never overwrites. */
  lemma StatementsEmit(asm: Assembler, sts: seq<Statement>, names: Names)
    requires Plain(sts)
    requires forall k :: 0 <= k < |sts| ==>
               Reached(sts, names, k).Ok? && Writable(asm, sts[k].item, names, Reached(sts, names, k).value)
    ensures Emitted(asm, Program(sts), names, |Program(sts)|).Ok? && Ascending(Program(sts), names)
  {
    var items := Program(sts);
    forall i | 0 <= i < |items| && Address(items, names, i).Ok?
      ensures Writable(asm, items[i], names, Address(items, names, i).value)
    {
      ItemWritable(asm, sts, names, i, Address(items, names, i).value);
    }
    EmitsAll(asm, items, names, |items|);
  }

  /** The place of statement k in the program, and that its output lasts. */
  lemma StatementKeeps(sts: seq<Statement>, names: Names, k: nat, a: u64)
    requires k < |sts| && Reached(sts, names, k) == Ok(a) && Ascending(Program(sts), names)
    ensures Index(sts, k) < |Program(sts)| && Program(sts)[Index(sts, k)] == sts[k].item
    ensures Address(Program(sts), names, Index(sts, k)) == Ok(a)
    ensures Keeps(Program(sts), names, Index(sts, k), |Program(sts)|)
  {
    AddressOf(sts, names, k);
    AscendingKeeps(Program(sts), names, Index(sts, k), |Program(sts)|);
  }
}
