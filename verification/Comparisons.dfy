/** What the flags of a subtraction say, and the instructions that use them at once. */
module Comparisons {
  import opened Bits
  import opened Isa
  import opened Machine

  // ------------------------------------------------------- flags as orders

  lemma CentreOf(x: int, m: int, h: int)
    requires h > 0 && m == 2 * h && 0 <= x < m
    ensures -h <= Centre(x, m) < h && (Centre(x, m) == x || Centre(x, m) == x - m)
  {
  }

  /** The residue of a number within one modulus of the range. */
  lemma Residue(d: int, m: int)
    requires m > 0 && -m <= d < m
    ensures d % m == if d < 0 then d + m else d
  {
    if d < 0 { DivisionUnique(d, m, -1, d + m); } else { DivisionUnique(d, m, 0, d); }
  }

  /** At every width: C is the unsigned order, Z equality and S xor O the signed order of the
      left operand and the right operand plus the borrow. */
  lemma SubtractionOrders(m: int, h: int, x: int, y: int, bin: nat)
    requires h > 0 && m == 2 * h && 0 <= x < m && 0 <= y < m && bin <= 1
    ensures var out := SubMod(m, x, y, bin);
            && (out.carry <==> x < y + bin)
            && (out.zero <==> x == y + bin || x == y + bin - m)
            && (out.sign != out.overflow <==> Centre(x, m) < Centre(y, m) + bin)
  {
    Residue(x - y - bin, m);
    CentreOf(x, m, h);
    CentreOf(y, m, h);
  }

  lemma CarriedResidue(y: int, b: int, m: int)
    requires 0 <= y < m && 0 <= b <= 1
    ensures (y + b) % m == if y + b == m then 0 else y + b
  {
    if y + b == m { DivisionUnique(y + b, m, 1, 0); } else { DivisionUnique(y + b, m, 0, y + b); }
  }

  lemma HalfModulus(size: Size) returns (h: int)
    ensures h > 0 && Modulus(size) == 2 * h
  {
    h := Modulus(size) / 2;
  }

  /** Every condition of a comparison is the order its name stands for: of the left operand and the
      right one plus the borrow, where equality is modulo the width. */
  lemma ConditionsAreOrders(s: State, size: Size, lhs: Reg, rhs: Reg, borrow: bool)
    ensures var m, b := Modulus(size), B(borrow && s.flags.carry);
            var x, y := s.regs[lhs] % m, s.regs[rhs] % m;
            && (Compare(s, C, size, lhs, rhs, borrow) <==> x < y + b)
            && (Compare(s, NC, size, lhs, rhs, borrow) <==> x >= y + b)
            && (Compare(s, L, size, lhs, rhs, borrow) <==> Signed(s.regs[lhs], m) < Signed(s.regs[rhs], m) + b)
            && (Compare(s, NL, size, lhs, rhs, borrow) <==> Signed(s.regs[lhs], m) >= Signed(s.regs[rhs], m) + b)
            && (Compare(s, Z, size, lhs, rhs, borrow) <==> x == (y + b) % m)
            && (Compare(s, NZ, size, lhs, rhs, borrow) <==> x != (y + b) % m)
  {
    var h := HalfModulus(size);
    CarriedResidue(s.regs[rhs] % Modulus(size), B(borrow && s.flags.carry), Modulus(size));
    SubtractionOrders(Modulus(size), h, s.regs[lhs] % Modulus(size), s.regs[rhs] % Modulus(size),
        B(borrow && s.flags.carry));
  }

  /** O says that the signed difference does not fit, S that its low part reads as negative. */
  lemma OverflowAndSign(s: State, size: Size, lhs: Reg, rhs: Reg, borrow: bool)
    ensures var m, b := Modulus(size), B(borrow && s.flags.carry);
            var d := Signed(s.regs[lhs], m) - Signed(s.regs[rhs], m) - b;
            && (Compare(s, NO, size, lhs, rhs, borrow) <==> -(m / 2) <= d < m / 2)
            && (Compare(s, O, size, lhs, rhs, borrow) <==> !Compare(s, NO, size, lhs, rhs, borrow))
            && (Compare(s, S, size, lhs, rhs, borrow) <==> Signed(d, m) < 0)
            && (Compare(s, NS, size, lhs, rhs, borrow) <==> Signed(d, m) >= 0)
  {
    var m, b := Modulus(size), B(borrow && s.flags.carry);
    var h := HalfModulus(size);
    SignOfDifference(m, h, s.regs[lhs] % m, s.regs[rhs] % m, b);
  }

  lemma SignOfDifference(m: int, h: int, x: int, y: int, b: int)
    requires h > 0 && m == 2 * h && 0 <= x < m && 0 <= y < m
    ensures Signed(Centre(x, m) - Centre(y, m) - b, m) < 0 <==> (x - y - b) % m >= m / 2
    ensures Signed(Centre(x, m) - Centre(y, m) - b, m) >= 0 <==> (x - y - b) % m < m / 2
  {
    var k := (if x < h then 0 else -1) + (if y < h then 0 else 1);
    assert Centre(x, m) - Centre(y, m) - b == x - y - b + k * m;
    var q, r := (x - y - b) / m, (x - y - b) % m;
    assert x - y - b == q * m + r;
    assert q * m + k * m == (q + k) * m;
    DivisionUnique(x - y - b + k * m, m, q + k, r);
  }

  /** The same of the flags any subtraction leaves, its right operand a register or a shifted
      immediate: C is the unsigned order, Z equality modulo the width, O that the signed
      difference does not fit, S its sign, and S xor O the signed order, with the borrow. */
  lemma SubtractionFlags(s: State, size: Size, dst: Option<Reg>, lhs: Reg, rhs: AluRhs, borrow: bool, t: State)
    requires ExecSub(s, size, dst, lhs, rhs, borrow, true) == Done(t)
    ensures var m, b := Modulus(size), B(borrow && s.flags.carry);
            var x, y := s.regs[lhs], RhsValue(s.regs, rhs);
            var d := Signed(x, m) - Signed(y, m) - b;
            && (t.flags.carry <==> x % m < y % m + b)
            && (t.flags.zero <==> x % m == (y % m + b) % m)
            && (t.flags.overflow <==> !(-(m / 2) <= d < m / 2))
            && (t.flags.sign <==> Signed(d, m) < 0)
            && (t.flags.sign != t.flags.overflow <==> Signed(x, m) < Signed(y, m) + b)
  {
    var m, b := Modulus(size), B(borrow && s.flags.carry);
    var x, y := s.regs[lhs] % m, RhsValue(s.regs, rhs) % m;
    var h := HalfModulus(size);
    CarriedResidue(y, b, m);
    SubtractionOrders(m, h, x, y, b);
    SignOfDifference(m, h, x, y, b);
  }

  // ------------------------------------------------------ fused comparisons

  /** The same effect with the given flags in force before it. */
  function WithFlags(e: Effect, f: Flags): Effect {
    match e
    case Done(t) => Done(t.(flags := f))
    case Raised(t) => Raised(t.(eflags := f, flags := f.(enabled := false, pl1 := false)))
    case Abort => Abort
  }

  /** The comparison on its own: a subtraction that stores nothing but flags, and the
      instruction pointer moved to what follows it. */
  function Compared(s: State, size: Size, lhs: Reg, rhs: Reg, borrow: bool): State {
    Advance(ExecSub(s, size, None, lhs, AluReg(rhs), borrow, true).s)
  }

  lemma ComparedTests(s: State, c: Condition, size: Size, lhs: Reg, rhs: Reg, borrow: bool)
    ensures var u := Compared(s, size, lhs, rhs, borrow);
            && TestFlags(c, u.flags) == Compare(s, c, size, lhs, rhs, borrow)
            && u == s.(ip := u.ip, flags := u.flags) && u.flags.enabled == s.flags.enabled && u.flags.pl1 == s.flags.pl1
  {
  }

  lemma JumpWithFlags(s: State, f: Flags, dest: u64)
    requires f.pl1 == s.flags.pl1 && f.enabled == s.flags.enabled
    ensures WithFlags(JumpTo(s.(flags := f), dest), s.flags) == JumpTo(s, dest)
  {
  }

  /** `cjmpa` is the comparison followed by the conditional jump, with the old flags back. */
  lemma FusedJump(s: State, c: Condition, size: Size, addr: Reg, lhs: Reg, rhs: Reg)
    ensures var u := Compared(s, size, lhs, rhs, false);
            Exec(s.(ip := u.ip), Cjmpa(c, size, addr, lhs, rhs)) == WithFlags(Exec(u, Jmpa(Some(c), addr)), s.flags)
  {
    var u := Compared(s, size, lhs, rhs, false);
    ComparedTests(s, c, size, lhs, rhs, false);
    JumpWithFlags(s.(ip := u.ip), u.flags, s.regs[addr]);
  }

  /** A conditional relative jump, as a jump to the address its target stands for. */
  lemma RelativeJump(u: State, c: Condition, target: JumpTarget)
    ensures Exec(u, Jmpr(Some(c), target)) == if TestFlags(c, u.flags) then JumpTo(u, TargetAddress(u, target))
            else Done(u)
  {
  }

  lemma BranchIsJump(s: State, c: Condition, size: Size, branch: BranchTarget, lhs: Reg, rhs: Reg)
    ensures Exec(s, Cjmpr(c, size, branch, lhs, rhs)) ==
            if Compare(s, c, size, lhs, rhs, false) then JumpTo(s, BranchAddress(s, branch)) else Done(s)
  {
  }

  /** `cjmpr`, by register or by offset, likewise. */
  lemma FusedBranch(s: State, c: Condition, size: Size, branch: BranchTarget, lhs: Reg, rhs: Reg)
    ensures var u := Compared(s, size, lhs, rhs, false);
            var target := if branch.BranchReg? then JumpReg(branch.r) else JumpRel(branch.offset);
            Exec(s.(ip := u.ip), Cjmpr(c, size, branch, lhs, rhs)) == WithFlags(Exec(u, Jmpr(Some(c), target)), s.flags)
  {
    var u := Compared(s, size, lhs, rhs, false);
    ComparedTests(s, c, size, lhs, rhs, false);
    RelativeJump(u, c, if branch.BranchReg? then JumpReg(branch.r) else JumpRel(branch.offset));
    BranchIsJump(s.(ip := u.ip), c, size, branch, lhs, rhs);
    JumpWithFlags(s.(ip := u.ip), u.flags, BranchAddress(u, branch));
  }

  /** `soc`, with or without borrow, is the comparison followed by `sof`. */
  lemma FusedSet(s: State, c: Condition, borrow: bool, size: Size, d: Reg, lhs: Reg, rhs: Reg)
    ensures var u := Compared(s, size, lhs, rhs, borrow);
            Exec(s.(ip := u.ip), Soc(c, borrow, size, d, lhs, rhs)) == WithFlags(Exec(u, Sof(c, size, d)), s.flags)
  {
    ComparedTests(s, c, size, lhs, rhs, borrow);
  }
}
