/** From the source text of an instruction to its execution: assemble, load, fetch, decode, run. */
module EndToEnd {
  import opened Bits
  import opened Isa
  import opened Memory
  import opened Machine
  import opened Runs
  import opened Expressions
  import opened Table
  import opened Operands
  import opened Meaning
  import opened Emission
  import opened Layout
  import opened Agreement
  import opened Image
  import opened Relative
  import V = Vm
  import D = Decoder
  import U = Util

  // -------------------------------------------------------- fetch and decode

  /** The output of the second pass, with all names of the first known, is in memory from
      address 0 on. */
  ghost predicate Built(asm: Assembler, items: seq<Item>, names: Names, m: Memory) {
    && Emitted(asm, items, names, |items|).Ok?
    && Extends(Emitted(asm, items, names, |items|).value.file, m)
  }

  /** The machine is at the place of instruction k. */
  predicate AtItem(items: seq<Item>, names: Names, k: nat, s: State) {
    k < |items| && items[k].Instruction? && Address(items, names, k).Ok?
        && s.ip == Align(Address(items, names, k).value)
  }

  lemma WordRead(m: Memory, a: nat, w: u32)
    requires Fits(m, a, 4) && m[a..a + 4] == LeBytes(w, 4)
    ensures ReadLe(m, a, 4) == w
  {
    ReadBytes(m, a, 4, w);
    Pow2Values();
    WordKept(w);
  }

  lemma WordKept(w: u32)
    ensures w % 0x1_0000_0000 == w
  {
  }

  lemma WordInMemory(m: Memory, f: seq<byte>, a: nat, w: u32)
    requires Extends(f, m) && a + 4 <= |f| && f[a..a + 4] == LeBytes(w, 4)
    ensures Fits(m, a, 4) && ReadLe(m, a, 4) == w
  {
    SliceStays(f, m, a, a + 4);
    WordRead(m, a, w);
  }

  /** Memory holds the word assembled for instruction k, unless a later item writes over it. */
  lemma WordAtItem(asm: Assembler, items: seq<Item>, names: Names, k: nat, m: Memory, a: u64)
    requires k < |items| && Built(asm, items, names, m) && Keeps(items, names, k, |items|)
    requires items[k].Instruction? && (Address(items, names, k).Ok? ==> a == Align(Address(items, names, k).value))
    ensures Fits(m, a, 4) && asm(items[k].src, names, a).Ok? && ReadLe(m, a, 4) == asm(items[k].src, names, a).value
  {
    ImageHolds(asm, items, names, k, |items|);
    var f := Emitted(asm, items, names, |items|).value.file;
    WordInMemory(m, f, a, asm(items[k].src, names, a).value);
  }

  /** At the place of such an instruction the machine finds the word assembled for it. */
  lemma StandsAtItem(items: seq<Item>, names: Names, k: nat, s: State)
    requires Built(Assemble, items, names, s.mem) && AtItem(items, names, k, s) && Keeps(items, names, k, |items|)
    ensures Standing(items[k].src, names, s.ip, s)
  {
    WordAtItem(Assemble, items, names, k, s.mem, s.ip);
  }

  /** So it is about to execute the instruction the source line means. */
  lemma RunsWhatWasWritten(items: seq<Item>, names: Names, k: nat, s: State) returns (b: Bound)
    requires Built(Assemble, items, names, s.mem) && AtItem(items, names, k, s) && Keeps(items, names, k, |items|)
    ensures Resolve(items[k].src, names, s.ip) == Ok(b) && Conditioned(items[k].src.row, b)
    ensures AtInstr(D.Decode, s, Meant(items[k].src.row, b))
  {
    StandsAtItem(items, names, k, s);
    b := AssembledMeans(items[k].src, names, s.ip);
  }

  // ------------------------------------------------------- values in memory

  lemma TruncatedValue(v: u64, size: Size)
    ensures Stored(v, size) == LeBytes(v % Modulus(size), ByteSize(size))
    ensures v % Modulus(size) % Pow2(8 * ByteSize(size)) == v % Modulus(size)
  {
    ModulusIsPow2(size);
    U.SmallResidue(v % Modulus(size), size);
  }

  lemma ValueRead(m: Memory, a: nat, size: Size, v: u64)
    requires Fits(m, a, ByteSize(size)) && m[a..a + ByteSize(size)] == Stored(v, size)
    ensures ReadLe(m, a, ByteSize(size)) == v % Modulus(size)
  {
    TruncatedValue(v, size);
    ReadBytes(m, a, ByteSize(size), v % Modulus(size));
  }

  /** Memory holds every value of a `.write`, the lowest byte first and cut to its size, at the
      directive's address plus the sizes of the values before it, unless a later item writes over
      them: this is what a load of that size from there gives. */
  lemma ValueReadsBack(asm: Assembler, items: seq<Item>, names: Names, j: nat, k: nat, m: Memory)
          returns (a: u64, v: u64)
    requires j < |items| && Built(asm, items, names, m) && Keeps(items, names, j, |items|)
    requires items[j].Write? && k < |items[j].vals|
    ensures Address(items, names, j) == Ok(a) && Eval(items[j].vals[k], names, a) == Ok(v)
    ensures var n := ByteSize(items[j].size);
            Fits(m, a + n * k, n) && ReadLe(m, a + n * k, n) == v % Modulus(items[j].size)
  {
    var size, vals := items[j].size, items[j].vals;
    var f := Emitted(asm, items, names, |items|).value.file;
    ImageHolds(asm, items, names, j, |items|);
    a := Address(items, names, j).value;
    assert HasValue(f, a, size, vals[k], names, k);
    v := Eval(vals[k], names, a).value;
    ValuePlace(a, size, k, |vals|);
    SliceStays(f, m, a + ByteSize(size) * k, a + ByteSize(size) * k + ByteSize(size));
    ValueRead(m, a + ByteSize(size) * k, size, v);
  }

  // --------------------------------------------------------- jumps to labels

  /** Item i is the label `name` and item j the instruction it marks. */
  predicate Marks(items: seq<Item>, i: nat, name: string, j: nat) {
    && i < j < |items| && items[i] == Label(name) && Labels(items, i, j) && items[j].Instruction?
  }

  /** A program whose names are bound once, assembled and in memory. */
  ghost predicate Assembled(items: seq<Item>, names: Names, m: Memory) {
    && BoundOnce(items) && Placed(items, |items|).Ok? && names == Placed(items, |items|).value.names
    && Built(Assemble, items, names, m)
  }

  /** What a label in an expression is worth: the place of what it marks. */
  function PlaceOf(item: Item, a: u64): u64 {
    if item.Instruction? then Align(a) else a
  }

  lemma LabelValue(items: seq<Item>, names: Names, i: nat, name: string, j: nat, here: u64)
    requires BoundOnce(items) && Placed(items, |items|).Ok? && names == Placed(items, |items|).value.names
    requires i < j < |items| && items[i] == Label(name) && Labels(items, i, j) && !items[j].Label?
    ensures Address(items, names, j).Ok?
            && Eval(Ident(name), names, here) == Ok(PlaceOf(items[j], Address(items, names, j).value))
  {
    LabelIsAddress(items, i, j);
  }

  lemma JumpToName(src: Source, names: Names, name: string, v: u64, s: State) returns (t: State)
    requires Standing(src, names, s.ip, s) && s.ip % 4 == 0 && src.row.RJmpr? && src.args == [ImmArg(Ident(name))]
    requires Taken(src.cond, s.flags) && Eval(Ident(name), names, s.ip) == Ok(v)
    requires -0x80_0000 <= Distance(s.ip, v) < 0x80_0000
    ensures Step(D.Decode, s) == Next(t) && t == s.(ip := v)
  {
    var target: u64;
    target, t := JumpGoesToTarget(src, names, s.ip, s);
  }

  lemma CallToName(src: Source, names: Names, name: string, v: u64, s: State) returns (t: State)
    requires Standing(src, names, s.ip, s) && s.ip % 4 == 0 && src.row.RCallr? && src.args == [ImmArg(Ident(name))]
    requires Taken(src.cond, s.flags) && Eval(Ident(name), names, s.ip) == Ok(v)
    requires -0x80_0000 <= Distance(s.ip, v) < 0x80_0000
    ensures Step(D.Decode, s) == Next(t) && t == s.(ip := v, regs := s.regs[LR := Wrap(s.ip + 4)])
  {
    var target: u64;
    target, t := CallGoesToTarget(src, names, s.ip, s);
  }

  /** `jmpr label` in a source program, assembled, loaded and executed with its condition met,
      brings the machine to the instruction the label marks: it is about to execute what that
      line means, if the label is within 2^23 bytes. */
  lemma JumpReachesLabel(items: seq<Item>, names: Names, k: nat, i: nat, j: nat, name: string, s: State)
          returns (t: State, b: Bound)
    requires Assembled(items, names, s.mem) && AtItem(items, names, k, s) && Marks(items, i, name, j)
    requires Keeps(items, names, k, |items|) && Keeps(items, names, j, |items|)
    requires items[k].src.row.RJmpr? && items[k].src.args == [ImmArg(Ident(name))] && Taken(items[k].src.cond, s.flags)
    requires Address(items, names, j).Ok?
            ==> -0x80_0000 <= Distance(s.ip, Align(Address(items, names, j).value)) < 0x80_0000
    ensures Step(D.Decode, s) == Next(t) && t == s.(ip := t.ip) && AtItem(items, names, j, t)
    ensures Resolve(items[j].src, names, t.ip) == Ok(b) && Conditioned(items[j].src.row, b)
    ensures AtInstr(D.Decode, t, Meant(items[j].src.row, b))
  {
    StandsAtItem(items, names, k, s);
    AlignRounds(Address(items, names, k).value);
    LabelValue(items, names, i, name, j, s.ip);
    t := JumpToName(items[k].src, names, name, Align(Address(items, names, j).value), s);
    b := RunsWhatWasWritten(items, names, j, t);
  }

  /** `callr label` likewise, with the address of the next instruction in the link register. */
  lemma CallReachesLabel(items: seq<Item>, names: Names, k: nat, i: nat, j: nat, name: string, s: State)
          returns (t: State, b: Bound)
    requires Assembled(items, names, s.mem) && AtItem(items, names, k, s) && Marks(items, i, name, j)
    requires Keeps(items, names, k, |items|) && Keeps(items, names, j, |items|)
    requires items[k].src.row.RCallr? && items[k].src.args == [ImmArg(Ident(name))] && Taken(items[k].src.cond, s.flags)
    requires Address(items, names, j).Ok?
            ==> -0x80_0000 <= Distance(s.ip, Align(Address(items, names, j).value)) < 0x80_0000
    ensures Step(D.Decode, s) == Next(t) && t == s.(ip := t.ip, regs := s.regs[LR := Wrap(s.ip + 4)])
    ensures AtItem(items, names, j, t) && Resolve(items[j].src, names, t.ip) == Ok(b)
            && Conditioned(items[j].src.row, b)
    ensures AtInstr(D.Decode, t, Meant(items[j].src.row, b))
  {
    StandsAtItem(items, names, k, s);
    AlignRounds(Address(items, names, k).value);
    LabelValue(items, names, i, name, j, s.ip);
    t := CallToName(items[k].src, names, name, Align(Address(items, names, j).value), s);
    b := RunsWhatWasWritten(items, names, j, t);
  }

  lemma BranchToName(src: Source, names: Names, name: string, v: u64, x: SReg, y: SReg, s: State) returns (t: State)
    requires Standing(src, names, s.ip, s) && s.ip % 4 == 0 && src.row.RCjmpr?
    requires src.args == [ImmArg(Ident(name)), RegArg(x), RegArg(y)] && Eval(Ident(name), names, s.ip) == Ok(v)
    requires Holds(src, names, x, y, s) && -0x4000 <= Distance(s.ip, v) < 0x4000
    ensures Step(D.Decode, s) == Next(t) && t == s.(ip := v)
  {
    var target, size;
    target, size, t := BranchGoesToTarget(src, names, s.ip, s);
  }

  /** The comparison of a `cjmpr` holds, at the size its registers declare. */
  predicate Holds(src: Source, names: Names, x: SReg, y: SReg, s: State) {
    src.cond.Some? && Resolve(src, names, s.ip).Ok?
    && Compare(s, src.cond.value, Resolve(src, names, s.ip).value.s, x.id, y.id, false)
  }

  /** `cjmpr label, x, y` likewise, when its comparison holds and the label is within 2^14 bytes. */
  lemma BranchReachesLabel(items: seq<Item>, names: Names, k: nat, i: nat, j: nat, name: string, x: SReg, y: SReg,
          s: State) returns (t: State, b: Bound)
    requires Assembled(items, names, s.mem) && AtItem(items, names, k, s) && Marks(items, i, name, j)
    requires Keeps(items, names, k, |items|) && Keeps(items, names, j, |items|)
    requires items[k].src.row.RCjmpr? && items[k].src.args == [ImmArg(Ident(name)), RegArg(x), RegArg(y)]
    requires Holds(items[k].src, names, x, y, s)
    requires Address(items, names, j).Ok?
            ==> -0x4000 <= Distance(s.ip, Align(Address(items, names, j).value)) < 0x4000
    ensures Step(D.Decode, s) == Next(t) && t == s.(ip := t.ip) && AtItem(items, names, j, t)
    ensures Resolve(items[j].src, names, t.ip) == Ok(b) && Conditioned(items[j].src.row, b)
    ensures AtInstr(D.Decode, t, Meant(items[j].src.row, b))
  {
    StandsAtItem(items, names, k, s);
    AlignRounds(Address(items, names, k).value);
    LabelValue(items, names, i, name, j, s.ip);
    t := BranchToName(items[k].src, names, name, Align(Address(items, names, j).value), x, y, s);
    b := RunsWhatWasWritten(items, names, j, t);
  }

  lemma LdrLoadsName(src: Source, names: Names, d: SReg, name: string, v: u64, s: State) returns (t: State)
    requires Standing(src, names, s.ip, s) && src.row.RLdr? && src.args == [RegArg(d), ImmArg(Ident(name))]
    requires Eval(Ident(name), names, s.ip) == Ok(v) && -0x20_0000 <= Distance(s.ip, v) < 0x20_0000
    ensures Step(D.Decode, s) == Next(t) && t == s.(ip := Wrap(s.ip + 4), regs := s.regs[d.id := v])
  {
    var target: u64;
    target, t := LdrLoadsTarget(src, names, s.ip, s);
  }

  /** `ldr d, label` puts the address of the marked item in d, a directive's too, if it is within
      2^21 bytes. */
  lemma LdrLoadsLabel(items: seq<Item>, names: Names, k: nat, i: nat, j: nat, name: string, d: SReg, s: State)
          returns (t: State)
    requires Assembled(items, names, s.mem) && AtItem(items, names, k, s) && Keeps(items, names, k, |items|)
    requires i < j < |items| && items[i] == Label(name) && Labels(items, i, j) && !items[j].Label?
    requires items[k].src.row.RLdr? && items[k].src.args == [RegArg(d), ImmArg(Ident(name))]
    requires Address(items, names, j).Ok? ==>
               -0x20_0000 <= Distance(s.ip, PlaceOf(items[j], Address(items, names, j).value)) < 0x20_0000
    ensures Address(items, names, j).Ok? && Step(D.Decode, s) == Next(t)
    ensures t == s.(ip := Wrap(s.ip + 4), regs := s.regs[d.id := PlaceOf(items[j], Address(items, names, j).value)])
  {
    StandsAtItem(items, names, k, s);
    LabelValue(items, names, i, name, j, s.ip);
    t := LdrLoadsName(items[k].src, names, d, name, PlaceOf(items[j], Address(items, names, j).value), s);
  }

  // ------------------------------------------------ the emulator's own loop

  /** Loading a file at address 0: it is in memory if it fits, and nothing else changes. */
  method Load(vm: V.VM, file: seq<byte>) returns (loaded: bool)
    requires vm.Valid()
    modifies vm.memory
    ensures vm.Valid() && vm.State() == old(vm.State()).(mem := vm.State().mem)
    ensures loaded <==> |file| <= vm.memory.Length
    ensures loaded ==> Extends(file, vm.State().mem)
    ensures loaded ==> vm.State().mem[|file|..] == old(vm.State().mem)[|file|..]
  {
    loaded := vm.LoadFile(file, 0);
  }

  /** n cycles from `start` have led to `now`, or to a panic.  It opens by Opened. */
  ghost predicate Ran(start: State, n: nat, running: bool, now: State) {
    forall x {:trigger Opened(x)} :: Opened(x) ==>
      Cycles(D.Decode, start, n) == if running then Next(now) else Panic
  }

  lemma RanNone(s: State)
    ensures Ran(s, 0, true, s)
  {
  }

  lemma RanOnce(start: State, i: nat, before: State, running: bool, now: State)
    requires Ran(start, i, true, before) && Step(D.Decode, before) == if running then Next(now) else Panic
    ensures Ran(start, i + 1, running, now)
  {
    assert Opened(0);
    OneMoreCycle(D.Decode, start, i, before, if running then Next(now) else Panic);
  }

  lemma RanAll(start: State, i: nat, n: nat, running: bool, now: State)
    requires Ran(start, i, running, now) && i <= n && (running ==> i == n)
    ensures Cycles(D.Decode, start, n) == if running then Next(now) else Panic
  {
    assert Opened(0);
    if !running { PanicIsFinal(D.Decode, start, i, n); }
  }

  /** One turn is one more cycle. */
  method Turn(vm: V.VM, ghost start: State, ghost i: nat) returns (running: bool)
    requires vm.Valid() && Ran(start, i, true, vm.State())
    modifies vm, vm.memory, vm.registerFile
    ensures vm.Valid() && Ran(start, i + 1, running, vm.State())
  {
    ghost var before := vm.State();
    running := vm.ExecuteOne();
    RanOnce(start, i, before, running, vm.State());
  }

  /** n turns of the emulator's loop are n cycles, so whatever holds of runs holds of it. */
  method RunEmulator(vm: V.VM, n: nat) returns (running: bool)
    requires vm.Valid()
    modifies vm, vm.memory, vm.registerFile
    ensures vm.Valid()
    ensures Cycles(D.Decode, old(vm.State()), n) == if running then Next(vm.State()) else Panic
  {
    running := true;
    ghost var start := vm.State();
    RanNone(start);
    var i := 0;
    while i < n && running
      invariant 0 <= i <= n && vm.Valid() && Ran(start, i, running, vm.State())
    {
      running := Turn(vm, start, i);
      i := i + 1;
    }
    RanAll(start, i, n, running, vm.State());
  }
}
