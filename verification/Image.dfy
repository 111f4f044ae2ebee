/** What the assembler writes is what the emulator finds. */
module Image {
  import opened Bits
  import opened Isa
  import opened Memory
  import opened Machine
  import opened Expressions
  import opened Operands
  import opened Layout
  import opened Agreement

  // ------------------------------------------------------- bytes of words

  lemma {:induction false} ReadBytes(m: seq<byte>, a: nat, n: nat, v: nat)
    requires Fits(m, a, n) && m[a..a + n] == LeBytes(v, n)
    ensures ReadLe(m, a, n) == v % Pow2(8 * n)
    decreases n
  {
    if n > 0 {
      assert m[a..a + n][1..] == m[a + 1..a + n];
      assert m[a] == m[a..a + n][0];
      ReadBytes(m, a + 1, n - 1, v / 0x100);
      ModBytes(v, n - 1);
    }
  }

  /** m begins with f. */
  predicate Extends(f: seq<byte>, m: seq<byte>) {
    |f| <= |m| && m[..|f|] == f
  }

  lemma SliceStays(f: seq<byte>, m: seq<byte>, lo: nat, hi: nat)
    requires Extends(f, m) && lo <= hi <= |f|
    ensures m[lo..hi] == f[lo..hi]
  {
    forall i | lo <= i < hi ensures m[i] == f[i] { assert m[..|f|][i] == f[i]; }
  }

  // ------------------------------------------------------ what an item writes

  /** Byte i is part of value j of a `.write`. */
  predicate InValue(a: u64, size: Size, j: nat, i: int) {
    AfterWrite(a, size, j) <= i < AfterWrite(a, size, j) + ByteSize(size)
  }

  /** An item at address a writes byte i. */
  ghost predicate Writes(item: Item, a: u64, i: int) {
    match item
    case Instruction(_) => Align(a) <= i < Align(a) + 4
    case Write(size, vals) => exists j :: 0 <= j < |vals| && InValue(a, size, j, i)
    case _ => false
  }

  /** Value k of a `.write` stands in its place, cut to its size. */
  ghost predicate HasValue(f: seq<byte>, a: u64, size: Size, e: Expr, names: Names, k: nat) {
    var at := AfterWrite(a, size, k);
    && Eval(e, names, a).Ok? && at + ByteSize(size) <= |f|
    && f[at..at + ByteSize(size)] == Stored(Eval(e, names, a).value, size)
  }

  /** The file holds what an item at address a writes. */
  ghost predicate Holds(asm: Assembler, item: Item, names: Names, a: u64, f: seq<byte>) {
    match item
    case Instruction(src) =>
      && asm(src, names, Align(a)).Ok? && Align(a) + 4 <= |f|
      && f[Align(a)..Align(a) + 4] == LeBytes(asm(src, names, Align(a)).value, 4)
    case Write(size, vals) => forall j :: 0 <= j < |vals| ==> HasValue(f, a, size, vals[j], names, j)
    case _ => true
  }

  /** The values of a `.write` do not run over the top of the address space. */
  predicate Flat(item: Item, a: u64) {
    item.Write? ==> a + ByteSize(item.size) * |item.vals| <= W64
  }

  /** Writing changes the bytes it covers and fills the gap before them with zeros. */
  lemma PatchedByte(f: seq<byte>, at: nat, bytes: seq<byte>, i: nat)
    requires i < |Patch(f, at, bytes)|
    ensures Patch(f, at, bytes)[i] ==
            if at <= i < at + |bytes| then bytes[i - at] else if i < |f| then f[i] else 0
  {
  }

  /** g is f but for the bytes an item wrote, and longer by zeros. */
  ghost predicate Written(item: Item, a: u64, f: seq<byte>, g: seq<byte>) {
    |f| <= |g| && forall i :: 0 <= i < |g| && !Writes(item, a, i) ==> g[i] == if i < |f| then f[i] else 0
  }

  /** Byte i is the same in g as in f, or a new zero. */
  predicate KeptByte(f: seq<byte>, g: seq<byte>, i: nat) {
    |f| <= |g| && (i < |g| ==> g[i] == if i < |f| then f[i] else 0)
  }

  lemma {:induction false} ValuesWritten(f: seq<byte>, a: u64, size: Size, vals: seq<Expr>, names: Names, j: nat,
          i: nat)
    requires j <= |vals| && WriteValues(f, a, size, vals, names, j).Ok?
    requires forall k :: 0 <= k < j ==> !InValue(a, size, k, i)
    ensures KeptByte(f, WriteValues(f, a, size, vals, names, j).value, i)
    decreases j
  {
    if j > 0 {
      var g, v := LastValue(f, a, size, vals, names, j);
      assert KeptByte(f, g, i) by { ValuesWritten(f, a, size, vals, names, j - 1, i); }
      assert !InValue(a, size, j - 1, i);
      OtherByte(f, g, a, size, v, j - 1, i);
    }
  }

  lemma OtherByte(f: seq<byte>, g: seq<byte>, a: u64, size: Size, v: u64, j: nat, i: nat)
    requires KeptByte(f, g, i) && !InValue(a, size, j, i)
    ensures KeptByte(f, Patch(g, AfterWrite(a, size, j), Stored(v, size)), i)
  {
    var h := Patch(g, AfterWrite(a, size, j), Stored(v, size));
    if i < |h| { PatchedByte(g, AfterWrite(a, size, j), Stored(v, size), i); }
  }

  /** The last value written, and the file before it. */
  lemma LastValue(f: seq<byte>, a: u64, size: Size, vals: seq<Expr>, names: Names, j: nat)
          returns (g: seq<byte>, v: u64)
    requires 0 < j <= |vals| && WriteValues(f, a, size, vals, names, j).Ok?
    ensures WriteValues(f, a, size, vals, names, j - 1) == Ok(g) && Eval(vals[j - 1], names, a) == Ok(v)
    ensures WriteValues(f, a, size, vals, names, j) == Ok(Patch(g, AfterWrite(a, size, j - 1), Stored(v, size)))
  {
    g := WriteValues(f, a, size, vals, names, j - 1).value;
    v := Eval(vals[j - 1], names, a).value;
  }

  lemma Multiples(n: nat, j: nat, count: nat)
    requires j < count
    ensures n * j + n <= n * count
  {
    MulMono(count, j + 1, n);
    assert (j + 1) * n == n * j + n;
  }

  /** Without wrapping, value j of a `.write` stands at its multiple, inside the directive. */
  lemma ValuePlace(a: u64, size: Size, j: nat, count: nat)
    requires j < count && a + ByteSize(size) * count <= W64
    ensures AfterWrite(a, size, j) == a + ByteSize(size) * j
    ensures a + ByteSize(size) * j + ByteSize(size) <= a + ByteSize(size) * count
  {
    Multiples(ByteSize(size), j, count);
    Small64(a + ByteSize(size) * j);
  }

  /** So a later value starts after an earlier one. */
  lemma ValuesApart(a: u64, size: Size, k: nat, j: nat, count: nat)
    requires k < j < count && a + ByteSize(size) * count <= W64
    ensures AfterWrite(a, size, k) + ByteSize(size) <= AfterWrite(a, size, j)
  {
    ValuePlace(a, size, k, count);
    ValuePlace(a, size, j, count);
    Multiples(ByteSize(size), k, j);
  }

  lemma ValueStays(g: seq<byte>, a: u64, size: Size, e: Expr, names: Names, k: nat, at: nat, bytes: seq<byte>)
    requires HasValue(g, a, size, e, names, k) && AfterWrite(a, size, k) + ByteSize(size) <= at
    ensures HasValue(Patch(g, at, bytes), a, size, e, names, k)
  {
    var lo, hi := AfterWrite(a, size, k), AfterWrite(a, size, k) + ByteSize(size);
    var h := Patch(g, at, bytes);
    forall i | lo <= i < hi ensures h[i] == g[i] { PatchedByte(g, at, bytes, i); }
    assert h[lo..hi] == g[lo..hi];
  }

  lemma EarlierStays(g: seq<byte>, a: u64, size: Size, e: Expr, names: Names, k: nat, j: nat, count: nat, v: u64)
    requires HasValue(g, a, size, e, names, k) && k < j < count && a + ByteSize(size) * count <= W64
    ensures HasValue(Patch(g, AfterWrite(a, size, j), Stored(v, size)), a, size, e, names, k)
  {
    ValuesApart(a, size, k, j, count);
    ValueStays(g, a, size, e, names, k, AfterWrite(a, size, j), Stored(v, size));
  }

  lemma ValueStands(g: seq<byte>, a: u64, size: Size, e: Expr, names: Names, k: nat)
    requires Eval(e, names, a).Ok?
    ensures HasValue(Patch(g, AfterWrite(a, size, k), Stored(Eval(e, names, a).value, size)), a, size, e, names, k)
  {
  }

  lemma OneMoreStands(g: seq<byte>, a: u64, size: Size, vals: seq<Expr>, names: Names, j: nat, v: u64)
    requires j < |vals| && a + ByteSize(size) * |vals| <= W64 && Eval(vals[j], names, a) == Ok(v)
    requires forall k :: 0 <= k < j ==> HasValue(g, a, size, vals[k], names, k)
    ensures forall k :: 0 <= k <= j ==>
              HasValue(Patch(g, AfterWrite(a, size, j), Stored(v, size)), a, size, vals[k], names, k)
  {
    var h := Patch(g, AfterWrite(a, size, j), Stored(v, size));
    ValueStands(g, a, size, vals[j], names, j);
    forall k | 0 <= k < j ensures HasValue(h, a, size, vals[k], names, k) {
      EarlierStays(g, a, size, vals[k], names, k, j, |vals|, v);
    }
  }

  lemma {:induction false} ValuesStand(f: seq<byte>, a: u64, size: Size, vals: seq<Expr>, names: Names, j: nat)
    requires j <= |vals| && WriteValues(f, a, size, vals, names, j).Ok? && a + ByteSize(size) * |vals| <= W64
    ensures forall k :: 0 <= k < j ==>
              HasValue(WriteValues(f, a, size, vals, names, j).value, a, size, vals[k], names, k)
    decreases j
  {
    if j > 0 {
      var g, v := LastValue(f, a, size, vals, names, j);
      ValuesStand(f, a, size, vals, names, j - 1);
      OneMoreStands(g, a, size, vals, names, j - 1, v);
    }
  }

  lemma ItemWritten(asm: Assembler, item: Item, names: Names, a: u64, f: seq<byte>, g: seq<byte>)
    requires Emit(asm, item, names, a, f) == Ok(g)
    ensures Written(item, a, f, g)
  {
    match item
    case Instruction(src) =>
      var bytes := LeBytes(asm(src, names, Align(a)).value, 4);
      forall i | 0 <= i < |g| ensures g[i] == if Align(a) <= i < Align(a) + 4 then bytes[i - Align(a)]
          else if i < |f| then f[i] else 0 {
        PatchedByte(f, Align(a), bytes, i);
      }
    case Write(size, vals) => WriteWritten(item, names, a, f, g);
    case _ =>
  }

  lemma WriteWritten(item: Item, names: Names, a: u64, f: seq<byte>, g: seq<byte>)
    requires item.Write? && WriteValues(f, a, item.size, item.vals, names, |item.vals|) == Ok(g)
    ensures Written(item, a, f, g)
  {
    LengthGrows(f, a, item.size, item.vals, names, |item.vals|);
    forall i: nat | i < |g| && !Writes(item, a, i) ensures g[i] == if i < |f| then f[i] else 0 {
      ValuesWritten(f, a, item.size, item.vals, names, |item.vals|, i);
    }
  }

  lemma {:induction false} LengthGrows(f: seq<byte>, a: u64, size: Size, vals: seq<Expr>, names: Names, j: nat)
    requires j <= |vals| && WriteValues(f, a, size, vals, names, j).Ok?
    ensures |f| <= |WriteValues(f, a, size, vals, names, j).value|
    decreases j
  {
    if j > 0 { LengthGrows(f, a, size, vals, names, j - 1); }
  }

  lemma ItemStands(asm: Assembler, item: Item, names: Names, a: u64, f: seq<byte>, g: seq<byte>)
    requires Emit(asm, item, names, a, f) == Ok(g) && Flat(item, a)
    ensures Holds(asm, item, names, a, g)
  {
    match item
    case Write(size, vals) => ValuesStand(f, a, size, vals, names, |vals|);
    case _ =>
  }

  /** No byte of one item is a byte of the other. */
  ghost predicate Apart(item: Item, a: u64, other: Item, b: u64) {
    forall i :: Writes(item, a, i) ==> !Writes(other, b, i)
  }

  lemma HoldsStays(asm: Assembler, item: Item, names: Names, a: u64, other: Item, b: u64, f: seq<byte>, g: seq<byte>)
    requires Holds(asm, item, names, a, f) && Written(other, b, f, g) && Apart(item, a, other, b)
    ensures Holds(asm, item, names, a, g)
  {
    match item
    case Instruction(_) => SamePlace(item, a, other, b, f, g, Align(a), Align(a) + 4);
    case Write(size, vals) =>
      forall j | 0 <= j < |vals| ensures HasValue(g, a, size, vals[j], names, j) {
        assert HasValue(f, a, size, vals[j], names, j);
        var at := AfterWrite(a, size, j);
        forall i | at <= i < at + ByteSize(size) ensures Writes(item, a, i) { assert InValue(a, size, j, i); }
        SamePlace(item, a, other, b, f, g, at, at + ByteSize(size));
      }
    case _ =>
  }

  lemma SamePlace(item: Item, a: u64, other: Item, b: u64, f: seq<byte>, g: seq<byte>, lo: nat, hi: nat)
    requires lo <= hi <= |f| && (forall i :: lo <= i < hi ==> Writes(item, a, i))
    requires Written(other, b, f, g) && Apart(item, a, other, b)
    ensures g[lo..hi] == f[lo..hi]
  {
    forall i | lo <= i < hi ensures g[i] == f[i] { assert Writes(item, a, i); }
  }

  // ------------------------------------------------------ the whole image

  lemma {:induction false} EmittedAddress(asm: Assembler, items: seq<Item>, names: Names, k: nat)
    requires k <= |items| && Emitted(asm, items, names, k).Ok?
    ensures Address(items, names, k) == Ok(Emitted(asm, items, names, k).value.addr)
  {
    if k > 0 { EmittedAddress(asm, items, names, k - 1); }
  }

  /** One step of the pass: item k at its address. */
  lemma EmitStep(asm: Assembler, items: seq<Item>, names: Names, k: nat) returns (p: Progress)
    requires k < |items| && Emitted(asm, items, names, k + 1).Ok?
    ensures Emitted(asm, items, names, k) == Ok(p) && Address(items, names, k) == Ok(p.addr)
    ensures Emit(asm, items[k], names, p.addr, p.file) == Ok(Emitted(asm, items, names, k + 1).value.file)
  {
    p := Emitted(asm, items, names, k).value;
    EmittedAddress(asm, items, names, k);
  }

  /** No item after j, up to k, writes over it. */
  ghost predicate Undisturbed(items: seq<Item>, names: Names, j: nat, k: nat)
    requires j < k <= |items| && Address(items, names, j).Ok?
  {
    forall i :: j < i < k && Address(items, names, i).Ok? ==>
      Apart(items[j], Address(items, names, j).value, items[i], Address(items, names, i).value)
  }

  /** Item j does not run over the top, and nothing later writes over it. */
  ghost predicate Keeps(items: seq<Item>, names: Names, j: nat, k: nat)
    requires j < k <= |items|
  {
    Address(items, names, j).Ok? ==> Flat(items[j], Address(items, names, j).value) && Undisturbed(items, names, j, k)
  }

  /** Assemble and load: an instruction word or the values of a `.write` stand intact in the
      file at their own address, whatever the rest of the program does, unless a later item
      writes over them. */
  lemma {:induction false} ImageHolds(asm: Assembler, items: seq<Item>, names: Names, j: nat, k: nat)
    requires j < k <= |items| && Emitted(asm, items, names, k).Ok? && Keeps(items, names, j, k)
    ensures Address(items, names, j).Ok?
    ensures Holds(asm, items[j], names, Address(items, names, j).value, Emitted(asm, items, names, k).value.file)
  {
    var p := EmitStep(asm, items, names, k - 1);
    var g := Emitted(asm, items, names, k).value.file;
    if j < k - 1 {
      ImageHolds(asm, items, names, j, k - 1);
      ItemWritten(asm, items[k - 1], names, p.addr, p.file, g);
      HoldsStays(asm, items[j], names, Address(items, names, j).value, items[k - 1], p.addr, p.file, g);
    } else {
      ItemStands(asm, items[j], names, p.addr, p.file, g);
    }
  }

  /** And every byte nothing was written to is zero. */
  lemma {:induction false} GapsAreZero(asm: Assembler, items: seq<Item>, names: Names, k: nat, i: nat)
    requires k <= |items| && Emitted(asm, items, names, k).Ok?
    requires i < |Emitted(asm, items, names, k).value.file|
    requires forall j :: 0 <= j < k && Address(items, names, j).Ok? ==>
               !Writes(items[j], Address(items, names, j).value, i)
    ensures Emitted(asm, items, names, k).value.file[i] == 0
  {
    if k > 0 {
      var p := EmitStep(asm, items, names, k - 1);
      ItemWritten(asm, items[k - 1], names, p.addr, p.file, Emitted(asm, items, names, k).value.file);
      if i < |p.file| { GapsAreZero(asm, items, names, k - 1, i); }
    }
  }

  // --------------------------------------------------- programs that ascend

  /** An item that leaves the address where it is or moves it up without wrapping. */
  predicate Ascends(item: Item, names: Names, a: u64) {
    match item
    case Instruction(_) => a + 7 < W64
    case Write(size, vals) => a + ByteSize(size) * |vals| < W64
    case Addr(e) => Eval(e, names, a).Ok? ==> a <= Eval(e, names, a).value
    case _ => true
  }

  /** `.addr` never moves backwards and nothing reaches the top of the address space. */
  predicate Ascending(items: seq<Item>, names: Names) {
    forall k :: 0 <= k < |items| && Address(items, names, k).Ok?
        ==> Ascends(items[k], names, Address(items, names, k).value)
  }

  lemma NextIsUp(item: Item, names: Names, a: u64)
    requires Ascends(item, names, a) && NextAddress(item, names, a).Ok?
    ensures a <= NextAddress(item, names, a).value
    ensures forall i :: Writes(item, a, i) ==> a <= i < NextAddress(item, names, a).value
  {
    match item
    case Instruction(_) =>
      AlignBounds(a);
      Small64(Align(a) + 4);
    case Write(size, vals) =>
      Small64(a + ByteSize(size) * |vals|);
      forall i | Writes(item, a, i) ensures a <= i < a + ByteSize(size) * |vals| {
        var j :| 0 <= j < |vals| && InValue(a, size, j, i);
        ValueInside(a, size, j, |vals|);
      }
    case _ =>
  }

  lemma ValueInside(a: u64, size: Size, j: nat, count: nat)
    requires j < count && a + ByteSize(size) * count < W64
    ensures a <= AfterWrite(a, size, j) && AfterWrite(a, size, j) + ByteSize(size) <= a + ByteSize(size) * count
  {
    ValuePlace(a, size, j, count);
  }

  lemma {:induction false} AddressesAscend(items: seq<Item>, names: Names, j: nat, k: nat)
    requires j <= k <= |items| && Ascending(items, names) && Address(items, names, k).Ok?
    ensures Address(items, names, j).Ok? && Address(items, names, j).value <= Address(items, names, k).value
    decreases k - j
  {
    if j < k {
      NextIsUp(items[k - 1], names, Address(items, names, k - 1).value);
      AddressesAscend(items, names, j, k - 1);
    }
  }

  /** In a program whose addresses ascend nothing is ever written over. */
  lemma AscendingKeeps(items: seq<Item>, names: Names, j: nat, k: nat)
    requires j < k <= |items| && Ascending(items, names)
    ensures Keeps(items, names, j, k)
  {
    if Address(items, names, j).Ok? {
      var a := Address(items, names, j).value;
      forall i | j < i < k && Address(items, names, i).Ok?
          ensures Apart(items[j], a, items[i], Address(items, names, i).value) {
        AddressesAscend(items, names, j + 1, i);
        NextIsUp(items[j], names, a);
        WritesUp(items[i], names, Address(items, names, i).value);
      }
    }
  }

  lemma WritesUp(item: Item, names: Names, a: u64)
    requires Ascends(item, names, a)
    ensures forall i :: Writes(item, a, i) ==> a <= i
  {
    if !item.Addr? { NextIsUp(item, names, a); }
  }

  lemma {:induction false} ValuesBelow(f: seq<byte>, a: u64, size: Size, vals: seq<Expr>, names: Names, j: nat)
    requires j <= |vals| && |f| <= a && a + ByteSize(size) * |vals| < W64 && WriteValues(f, a, size, vals, names, j).Ok?
    ensures |WriteValues(f, a, size, vals, names, j).value| <= a + ByteSize(size) * |vals|
    decreases j
  {
    if j > 0 {
      var g, v := LastValue(f, a, size, vals, names, j);
      ValuesBelow(f, a, size, vals, names, j - 1);
      ValueInside(a, size, j - 1, |vals|);
    } else {
      Multiples(ByteSize(size), 0, |vals| + 1);
    }
  }

  lemma CodeBelow(a: u64, f: seq<byte>, bytes: seq<byte>)
    requires a + 7 < W64 && |f| <= a && |bytes| == 4
    ensures |Patch(f, Align(a), bytes)| <= AfterInstruction(a)
  {
    AlignBounds(a);
    Small64(Align(a) + 4);
  }

  lemma WriteBelow(a: u64, size: Size, vals: seq<Expr>, names: Names, f: seq<byte>)
    requires a + ByteSize(size) * |vals| < W64 && |f| <= a && WriteValues(f, a, size, vals, names, |vals|).Ok?
    ensures |WriteValues(f, a, size, vals, names, |vals|).value| <= AfterWrite(a, size, |vals|)
  {
    ValuesBelow(f, a, size, vals, names, |vals|);
    Small64(a + ByteSize(size) * |vals|);
  }

  lemma ItemBelow(asm: Assembler, item: Item, names: Names, a: u64, f: seq<byte>, g: seq<byte>)
    requires Emit(asm, item, names, a, f) == Ok(g) && Ascends(item, names, a) && |f| <= a
    requires NextAddress(item, names, a).Ok?
    ensures |g| <= NextAddress(item, names, a).value
  {
    match item
    case Instruction(src) => CodeBelow(a, f, LeBytes(asm(src, names, Align(a)).value, 4));
    case Write(size, vals) => WriteBelow(a, size, vals, names, f);
    case _ => NextIsUp(item, names, a);
  }

  /** The file of such a program ends where its addresses end. */
  lemma {:induction false} FileBelow(asm: Assembler, items: seq<Item>, names: Names, k: nat)
    requires k <= |items| && Emitted(asm, items, names, k).Ok? && Ascending(items, names)
    ensures |Emitted(asm, items, names, k).value.file| <= Emitted(asm, items, names, k).value.addr
  {
    if k > 0 {
      FileBelow(asm, items, names, k - 1);
      var p := EmitStep(asm, items, names, k - 1);
      ItemBelow(asm, items[k - 1], names, p.addr, p.file, Emitted(asm, items, names, k).value.file);
    }
  }
}
