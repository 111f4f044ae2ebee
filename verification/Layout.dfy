/**
 The assembler's two passes over a program.

 The first pass assigns an address to every name; the second walks the program again with
 all names known, and writes.  Both are loops over mutable state, proved to compute the
 functions below; these are proved to agree with each other and with what the emulator
 finds in memory.  Everything holds for any way `asm` of assembling one instruction.
 */
module Layout {
  import opened Bits
  import opened Isa
  import opened Machine
  import opened Expressions
  import opened Operands

  datatype Item =
    | Label(name: string)
    | Instruction(src: Source)
    | Addr(e: Expr)                         // .addr
    | Write(size: Size, vals: seq<Expr>)    // .write
    | Def(name: string, e: Expr)            // .def

  /** How one instruction is assembled at its own address. */
  type Assembler = (Source, Names, u64) -> Result<u32>

  /** `(addr + 3) & !3`. */
  function Align(a: u64): u64 {
    And(Wrap(a + 3), Bits.Not(3))
  }

  /** Rounding up to a multiple of four, except that it wraps at the top. */
  lemma AlignRounds(a: u64)
    ensures Align(a) == Wrap(a + 3) - Wrap(a + 3) % 4 && Align(a) % 4 == 0
  {
    assert Pow2(2) == 4;
    AndHighMask(Wrap(a + 3), 2);
    DropTwoBits(Wrap(a + 3));
  }

  lemma DropTwoBits(x: nat)
    ensures (x - x % 4) % 4 == 0
  {
  }

  lemma AlignBounds(a: u64)
    requires a + 3 < W64
    ensures a <= Align(a) < a + 4
  {
    AlignRounds(a);
    Small64(a + 3);
  }

  lemma Aligned(a: u64)
    requires a % 4 == 0
    ensures Align(a) == a
  {
    BelowTop(a);
    AlignRounds(a);
    AlignBounds(a);
    NoMultipleBetween(a, Align(a));
  }

  lemma BelowTop(a: u64)
    requires a % 4 == 0
    ensures a + 3 < W64
  {
  }

  lemma NoMultipleBetween(a: nat, b: nat)
    requires a % 4 == 0 && b % 4 == 0 && a <= b < a + 4
    ensures a == b
  {
  }

  lemma AlignTwice(a: u64)
    ensures Align(Align(a)) == Align(a)
  {
    AlignRounds(a);
    Aligned(Align(a));
  }

  /** The address after an instruction that may start at a. */
  function AfterInstruction(a: u64): u64 {
    Wrap(Align(a) + 4)
  }

  function AfterWrite(a: u64, size: Size, count: nat): u64 {
    Wrap(a + ByteSize(size) * count)
  }

  // ------------------------------------------------------- the first pass

  /** The labels from item i on are directly followed by an instruction. */
  predicate InstructionFollows(items: seq<Item>, i: nat)
    decreases |items| - i
  {
    i < |items| && (items[i].Instruction? || (items[i].Label? && InstructionFollows(items, i + 1)))
  }

  datatype Place = Place(addr: u64, names: Names)

  function Bind(p: Place, name: string, a: u64): Result<Place> {
    if name in p.names then Err(DuplicateLabel(name)) else Ok(Place(a, p.names[name := a]))
  }

  /** The first pass over item i. */
  function PlaceItem(items: seq<Item>, i: nat, p: Place): Result<Place>
    requires i < |items|
  {
    match items[i]
    case Label(name) => Bind(p, name, if InstructionFollows(items, i + 1) then Align(p.addr) else p.addr)
    case Instruction(_) => Ok(p.(addr := AfterInstruction(p.addr)))
    case Addr(e) => var v :- Eval(e, p.names, p.addr); Ok(p.(addr := v))
    case Write(size, vals) => Ok(p.(addr := AfterWrite(p.addr, size, |vals|)))
    case Def(name, e) => var v :- Eval(e, p.names, p.addr); Ok(p.(names := p.names[name := v]))
  }

  /** The first pass over the first k items. */
  function Placed(items: seq<Item>, k: nat): Result<Place>
    requires k <= |items|
  {
    if k == 0 then Ok(Place(0, map[]))
    else var p :- Placed(items, k - 1); PlaceItem(items, k - 1, p)
  }

  function NamesOf(r: Result<Place>): Result<Names> {
    var p :- r; Ok(p.names)
  }

  /** The source's loop: consecutive labels are gathered first and then get one address. */
  method FirstPass(items: seq<Item>) returns (r: Result<Names>)
    ensures r == NamesOf(Placed(items, |items|))
  {
    var p := Place(0, map[]);
    var i := 0;
    while i < |items|
      invariant i <= |items|
      invariant Placed(items, i) == Ok(p)
    {
      var next: Result<Place>;
      var count := 1;
      if items[i].Label? {
        count, next := PlaceLabels(items, i, p);
      } else {
        next := PlaceItem(items, i, p);
      }
      if next.Err? {
        FailureStays(items, i + count, |items|);
        return Err(next.error);
      }
      p := next.value;
      i := i + count;
    }
    r := Ok(p.names);
  }

  /** A run of labels from item i: aligned once if an instruction follows the run. */
  method PlaceLabels(items: seq<Item>, i: nat, p: Place) returns (count: nat, r: Result<Place>)
    requires i < |items| && items[i].Label? && Placed(items, i) == Ok(p)
    ensures 0 < count && i + count <= |items| && Placed(items, i + count) == r
  {
    var end := i;
    while end < |items| && items[end].Label?
      invariant i <= end <= |items|
      invariant forall j :: i <= j < end ==> items[j].Label?
    {
      end := end + 1;
    }
    var addr: u64 := if end < |items| && items[end].Instruction? then Align(p.addr) else p.addr;
    var names: Names := p.names;
    for j := i to end
      invariant Placed(items, j) == Ok(if j == i then p else Place(addr, names))
      invariant j == i ==> names == p.names
    {
      LabelStep(items, j, end, p.addr, addr, Place(if j == i then p.addr else addr, names));
      if items[j].name in names {
        return j + 1 - i, Err(DuplicateLabel(items[j].name));
      }
      names := names[items[j].name := addr];
    }
    return end - i, Ok(Place(addr, names));
  }

  /** A label in a run up to `end` gets the address of the run. */
  lemma LabelStep(items: seq<Item>, j: nat, end: nat, start: u64, addr: u64, q: Place)
    requires j < end <= |items| && forall k :: j <= k < end ==> items[k].Label?
    requires end == |items| || !items[end].Label?
    requires addr == if end < |items| && items[end].Instruction? then Align(start) else start
    requires Placed(items, j) == Ok(q) && (q.addr == start || q.addr == addr)
    ensures Placed(items, j + 1) == Bind(q, items[j].name, addr)
  {
    FollowsLabels(items, j, end);
    AlignTwice(start);
  }

  /** Within a run of labels up to i, an instruction follows iff item i is one. */
  lemma {:induction false} FollowsLabels(items: seq<Item>, j: nat, i: nat)
    requires j < i <= |items| && forall k :: j <= k < i ==> items[k].Label?
    requires i == |items| || !items[i].Label?
    ensures InstructionFollows(items, j + 1) <==> i < |items| && items[i].Instruction?
    decreases i - j
  {
    if j + 1 < i { FollowsLabels(items, j + 1, i); }
  }

  lemma {:induction false} FailureStays(items: seq<Item>, i: nat, k: nat)
    requires i <= k <= |items| && Placed(items, i).Err?
    ensures Placed(items, k) == Placed(items, i)
    decreases k - i
  {
    if i < k { FailureStays(items, i, k - 1); }
  }

  // ------------------------------------------------------ the second pass

  /** The address of the second pass after the first k items. */
  function Address(items: seq<Item>, names: Names, k: nat): Result<u64>
    requires k <= |items|
  {
    if k == 0 then Ok(0)
    else var a :- Address(items, names, k - 1); NextAddress(items[k - 1], names, a)
  }

  function NextAddress(item: Item, names: Names, a: u64): Result<u64> {
    match item
    case Label(_) => Ok(a)
    case Instruction(_) => Ok(AfterInstruction(a))
    case Addr(e) => Eval(e, names, a)
    case Write(size, vals) => Ok(AfterWrite(a, size, |vals|))
    case Def(_, _) => Ok(a)
  }

  function LeBytes(v: nat, n: nat): (r: seq<byte>)
    ensures |r| == n
    decreases n, v
  {
    if n == 0 then [] else [v % 0x100] + LeBytes(v / 0x100, n - 1)
  }

  /** The bytes of a value in a `.write`. */
  function Stored(v: u64, size: Size): (r: seq<byte>)
    ensures |r| == ByteSize(size)
  {
    LeBytes(Truncate(v, BitSize(size), false), ByteSize(size))
  }

  function Zeros(n: nat): seq<byte> {
    seq(n, i => 0)
  }

  /** Writing bytes at a position of a file, which grows by zeros when it is too short. */
  function Patch(f: seq<byte>, at: nat, bytes: seq<byte>): (r: seq<byte>)
    ensures |r| == if at + |bytes| <= |f| then |f| else at + |bytes|
  {
    var g := if |f| < at + |bytes| then f + Zeros(at + |bytes| - |f|) else f;
    g[..at] + bytes + g[at + |bytes|..]
  }

  /** The file after value j of a `.write` at address a. */
  function WriteValue(g: seq<byte>, a: u64, size: Size, e: Expr, names: Names, j: nat): Result<seq<byte>> {
    var v :- Eval(e, names, a);
    Ok(Patch(g, AfterWrite(a, size, j), Stored(v, size)))
  }

  /** The file after j of the values of a `.write` at address a. */
  function WriteValues(f: seq<byte>, a: u64, size: Size, vals: seq<Expr>, names: Names, j: nat): Result<seq<byte>>
    requires j <= |vals|
  {
    if j == 0 then Ok(f)
    else
      var g :- WriteValues(f, a, size, vals, names, j - 1);
      WriteValue(g, a, size, vals[j - 1], names, j - 1)
  }

  /** The file after an item at address a. */
  function Emit(asm: Assembler, item: Item, names: Names, a: u64, f: seq<byte>): Result<seq<byte>> {
    match item
    case Instruction(src) => var w :- asm(src, names, Align(a)); Ok(Patch(f, Align(a), LeBytes(w, 4)))
    case Write(size, vals) => WriteValues(f, a, size, vals, names, |vals|)
    case _ => Ok(f)
  }

  datatype Progress = Progress(addr: u64, file: seq<byte>)

  /** The second pass over the first k items. */
  function Emitted(asm: Assembler, items: seq<Item>, names: Names, k: nat): Result<Progress>
    requires k <= |items|
  {
    if k == 0 then Ok(Progress(0, []))
    else
      var p :- Emitted(asm, items, names, k - 1);
      EmitNext(asm, items[k - 1], names, p)
  }

  function EmitNext(asm: Assembler, item: Item, names: Names, p: Progress): Result<Progress> {
    var f :- Emit(asm, item, names, p.addr, p.file);
    var a :- NextAddress(item, names, p.addr);
    Ok(Progress(a, f))
  }

  /** The source's second loop. */
  method SecondPass(asm: Assembler, items: seq<Item>, names: Names) returns (r: Result<Progress>)
    ensures r == Emitted(asm, items, names, |items|)
  {
    var p := Progress(0, []);
    for i := 0 to |items|
      invariant Emitted(asm, items, names, i) == Ok(p)
    {
      var next := ProcessItem(asm, items[i], names, p);
      if next.Err? {
        EmissionFails(asm, items, names, i + 1, |items|);
        return Err(next.error);
      }
      p := next.value;
    }
    r := Ok(p);
  }

  method ProcessItem(asm: Assembler, item: Item, names: Names, p: Progress) returns (r: Result<Progress>)
    ensures r == EmitNext(asm, item, names, p)
  {
    var addr := p.addr;
    match item {
      case Instruction(src) =>
        var word := asm(src, names, Align(addr));
        if word.Err? { return Err(word.error); }
        return Ok(Progress(AfterInstruction(addr), Patch(p.file, Align(addr), LeBytes(word.value, 4))));
      case Addr(e) =>
        var v := Eval(e, names, addr);
        if v.Err? { return Err(v.error); }
        return Ok(Progress(v.value, p.file));
      case Write(size, vals) =>
        var g := WriteAll(p.file, addr, size, vals, names);
        if g.Err? { return Err(g.error); }
        return Ok(Progress(AfterWrite(addr, size, |vals|), g.value));
      case _ =>
        return Ok(p);
    }
  }

  method WriteAll(f: seq<byte>, a: u64, size: Size, vals: seq<Expr>, names: Names) returns (r: Result<seq<byte>>)
    ensures r == WriteValues(f, a, size, vals, names, |vals|)
  {
    r := Ok(f);
    for j := 0 to |vals|
      invariant r.Ok? && WriteValues(f, a, size, vals, names, j) == r
    {
      r := WriteOneValue(r.value, a, size, vals[j], names, j);
      if r.Err? {
        WritingFails(f, a, size, vals, names, j + 1, |vals|);
        return;
      }
    }
  }

  method WriteOneValue(g: seq<byte>, a: u64, size: Size, e: Expr, names: Names, j: nat) returns (r: Result<seq<byte>>)
    ensures r == WriteValue(g, a, size, e, names, j)
  {
    var v := Eval(e, names, a);
    if v.Err? { return Err(v.error); }
    r := Ok(Patch(g, AfterWrite(a, size, j), Stored(v.value, size)));
  }

  lemma {:induction false} EmissionFails(asm: Assembler, items: seq<Item>, names: Names, i: nat, k: nat)
    requires i <= k <= |items| && Emitted(asm, items, names, i).Err?
    ensures Emitted(asm, items, names, k) == Emitted(asm, items, names, i)
    decreases k - i
  {
    if i < k { EmissionFails(asm, items, names, i, k - 1); }
  }

  lemma {:induction false} WritingFails(f: seq<byte>, a: u64, size: Size, vals: seq<Expr>, names: Names, i: nat, k: nat)
    requires i <= k <= |vals| && WriteValues(f, a, size, vals, names, i).Err?
    ensures WriteValues(f, a, size, vals, names, k) == WriteValues(f, a, size, vals, names, i)
    decreases k - i
  {
    if i < k { WritingFails(f, a, size, vals, names, i, k - 1); }
  }
}
