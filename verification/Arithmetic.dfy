/** What the arithmetic instructions compute, over several instructions and several registers. */
module Arithmetic {
  import opened Bits
  import opened Isa
  import opened Machine

  // ------------------------------------------------- numbers of many limbs

  /** The number whose limbs, least significant first, are given in base m. */
  function Number(m: int, limbs: seq<nat>): int {
    if limbs == [] then 0 else limbs[0] + m * Number(m, limbs[1..])
  }

  predicate Limbs(m: int, limbs: seq<nat>) {
    forall i :: 0 <= i < |limbs| ==> limbs[i] < m
  }

  function Power(m: int, k: nat): int {
    if k == 0 then 1 else m * Power(m, k - 1)
  }

  /** The outcomes of one flag-setting `add` followed by `add`s with carry in: each limb takes
      the carry of the one below it. */
  function AddChain(m: int, x: seq<nat>, y: seq<nat>, cin: nat): (outs: seq<AluOut>)
    requires |x| == |y| && m > 0
    ensures |outs| == |x|
  {
    if x == [] then []
    else
      var first := AddMod(m, x[0], y[0], cin);
      [first] + AddChain(m, x[1..], y[1..], B(first.carry))
  }

  function SubChain(m: int, x: seq<nat>, y: seq<nat>, bin: nat): (outs: seq<AluOut>)
    requires |x| == |y| && m > 0
    ensures |outs| == |x|
  {
    if x == [] then []
    else
      var first := SubMod(m, x[0], y[0], bin);
      [first] + SubChain(m, x[1..], y[1..], B(first.carry))
  }

  function Values(outs: seq<AluOut>): seq<nat> {
    seq(|outs|, i requires 0 <= i < |outs| => outs[i].value)
  }

  lemma {:induction false} NumberBound(m: int, limbs: seq<nat>)
    requires m > 0 && Limbs(m, limbs)
    ensures 0 <= Number(m, limbs) < Power(m, |limbs|)
  {
    if limbs != [] {
      NumberBound(m, limbs[1..]);
      var n, p := Number(m, limbs[1..]), Power(m, |limbs| - 1);
      MulMono(p - 1, n, m);
      MulMono(n, 0, m);
      assert (p - 1) * m == m * p - m && n * m == m * n;
    }
  }

  lemma AddLimb(m: int, x: int, y: int, cin: nat)
    requires m > 0 && 0 <= x < m && 0 <= y < m && cin <= 1
    ensures var out := AddMod(m, x, y, cin);
            out.value + m * B(out.carry) == x + y + cin && out.value < m
  {
    var sum := x + y + cin;
    if sum >= m { DivisionUnique(sum, m, 1, sum - m); } else { DivisionUnique(sum, m, 0, sum); }
  }

  lemma SubLimb(m: int, x: int, y: int, bin: nat)
    requires m > 0 && 0 <= x < m && 0 <= y < m && bin <= 1
    ensures var out := SubMod(m, x, y, bin);
            out.value - m * B(out.carry) == x - y - bin && out.value < m
  {
    var diff := x - y - bin;
    if diff < 0 { DivisionUnique(diff, m, -1, diff + m); } else { DivisionUnique(diff, m, 0, diff); }
  }

  /** The carry out of the most significant limb. */
  function LastCarry(outs: seq<AluOut>, cin: nat): nat {
    if outs == [] then cin else B(outs[|outs| - 1].carry)
  }

  lemma ChainParts(m: int, outs: seq<AluOut>, cin: nat)
    requires outs != []
    ensures Number(m, Values(outs)) == outs[0].value + m * Number(m, Values(outs[1..]))
    ensures LastCarry(outs, cin) == LastCarry(outs[1..], B(outs[0].carry))
  {
    assert Values(outs)[1..] == Values(outs[1..]);
  }

  /** One limb's equation and that of the limbs above it make the equation of all limbs. */
  lemma Stack(m: int, low: int, c0: int, x0: int, y0: int, rest: int, c: int, p: int, x: int, y: int)
    requires low + m * c0 == x0 + y0 && rest + c * p == x + y + c0
    ensures (low + m * rest) + c * (m * p) == (x0 + m * x) + (y0 + m * y)
  {
    assert m * (rest + c * p) == m * rest + c * (m * p);
    assert m * (x + y + c0) == m * x + m * y + m * c0;
  }

  /** The limbs of the results, with the last carry above them, are the sum of the two numbers
      and the carry in. */
  predicate SumIs(m: int, x: seq<nat>, y: seq<nat>, cin: nat, outs: seq<AluOut>) {
    Number(m, Values(outs)) + LastCarry(outs, cin) * Power(m, |x|) == Number(m, x) + Number(m, y) + cin
  }

  /** The limbs of the results, with the last carry as the borrow from above, are the difference. */
  predicate DifferenceIs(m: int, x: seq<nat>, y: seq<nat>, bin: nat, outs: seq<AluOut>) {
    Number(m, Values(outs)) - LastCarry(outs, bin) * Power(m, |x|) == Number(m, x) - Number(m, y) - bin
  }

  lemma MoreSum(m: int, x: seq<nat>, y: seq<nat>, cin: nat, outs: seq<AluOut>)
    requires |x| == |y| == |outs| && x != [] && cin <= 1
    requires outs[0].value + m * B(outs[0].carry) == x[0] + y[0] + cin
    requires SumIs(m, x[1..], y[1..], B(outs[0].carry), outs[1..])
    ensures SumIs(m, x, y, cin, outs)
  {
    ChainParts(m, outs, cin);
    Stack(m, outs[0].value, B(outs[0].carry), x[0] + cin, y[0],
          Number(m, Values(outs[1..])), LastCarry(outs, cin), Power(m, |x| - 1), Number(m, x[1..]), Number(m, y[1..]));
  }

  lemma StackDifference(m: int, low: int, c0: int, x0: int, y0: int, bin: int, rest: int, c: int, p: int, x: int,
          y: int)
    requires low - m * c0 == x0 - y0 - bin && rest - c * p == x - y - c0
    ensures (low + m * rest) - c * (m * p) == (x0 + m * x) - (y0 + m * y) - bin
  {
    assert m * (rest - c * p) == m * rest - c * (m * p);
    assert m * (x - y - c0) == m * x - m * y - m * c0;
  }

  lemma MoreDifference(m: int, x: seq<nat>, y: seq<nat>, bin: nat, outs: seq<AluOut>)
    requires |x| == |y| == |outs| && x != [] && bin <= 1
    requires outs[0].value - m * B(outs[0].carry) == x[0] - y[0] - bin
    requires DifferenceIs(m, x[1..], y[1..], B(outs[0].carry), outs[1..])
    ensures DifferenceIs(m, x, y, bin, outs)
  {
    ChainParts(m, outs, bin);
    StackDifference(m, outs[0].value, B(outs[0].carry), x[0], y[0], bin,
                    Number(m, Values(outs[1..])), LastCarry(outs, bin), Power(m, |x| - 1), Number(m, x[1..]),
                        Number(m, y[1..]));
  }

  /** A chain of additions is exact. */
  lemma {:induction false} AddChainExact(m: int, x: seq<nat>, y: seq<nat>, cin: nat)
    requires m > 0 && |x| == |y| && Limbs(m, x) && Limbs(m, y) && cin <= 1
    ensures SumIs(m, x, y, cin, AddChain(m, x, y, cin))
  {
    if x != [] {
      var outs := AddChain(m, x, y, cin);
      AddLimb(m, x[0], y[0], cin);
      AddChainExact(m, x[1..], y[1..], B(outs[0].carry));
      MoreSum(m, x, y, cin, outs);
    }
  }

  /** A chain of subtractions is exact. */
  lemma {:induction false} SubChainExact(m: int, x: seq<nat>, y: seq<nat>, bin: nat)
    requires m > 0 && |x| == |y| && Limbs(m, x) && Limbs(m, y) && bin <= 1
    ensures DifferenceIs(m, x, y, bin, SubChain(m, x, y, bin))
  {
    if x != [] {
      var outs := SubChain(m, x, y, bin);
      SubLimb(m, x[0], y[0], bin);
      SubChainExact(m, x[1..], y[1..], B(outs[0].carry));
      MoreDifference(m, x, y, bin, outs);
    }
  }

  // ------------------------------------------ the signed reading of chains

  lemma {:induction false} NumberLast(m: int, limbs: seq<nat>)
    requires limbs != []
    ensures Number(m, limbs) == Number(m, limbs[..|limbs| - 1]) + Power(m, |limbs| - 1) * limbs[|limbs| - 1]
  {
    if |limbs| > 1 {
      var n := |limbs|;
      NumberLast(m, limbs[1..]);
      assert limbs[1..][..n - 2] == limbs[..n - 1][1..];
      assert m * (Power(m, n - 2) * limbs[n - 1]) == Power(m, n - 1) * limbs[n - 1];
    }
  }

  lemma {:induction false} AddChainLast(m: int, x: seq<nat>, y: seq<nat>, cin: nat)
    requires |x| == |y| && x != [] && m > 0 && cin <= 1
    ensures var n := |x| - 1;
            var below := AddChain(m, x[..n], y[..n], cin);
            AddChain(m, x, y, cin) == below + [AddMod(m, x[n], y[n], LastCarry(below, cin))]
  {
    if |x| > 1 {
      var n := |x| - 1;
      var first := AddMod(m, x[0], y[0], cin);
      AddChainLast(m, x[1..], y[1..], B(first.carry));
      assert x[1..][..n - 1] == x[..n][1..] && y[1..][..n - 1] == y[..n][1..];
    }
  }

  lemma {:induction false} SubChainLast(m: int, x: seq<nat>, y: seq<nat>, bin: nat)
    requires |x| == |y| && x != [] && m > 0 && bin <= 1
    ensures var n := |x| - 1;
            var below := SubChain(m, x[..n], y[..n], bin);
            SubChain(m, x, y, bin) == below + [SubMod(m, x[n], y[n], LastCarry(below, bin))]
  {
    if |x| > 1 {
      var n := |x| - 1;
      var first := SubMod(m, x[0], y[0], bin);
      SubChainLast(m, x[1..], y[1..], B(first.carry));
      assert x[1..][..n - 1] == x[..n][1..] && y[1..][..n - 1] == y[..n][1..];
    }
  }

  /** The signed value of a number of many limbs is that of its most significant limb with the
      others below it. */
  lemma SignedNumber(m: int, h: int, low: int, p: int, high: int)
    requires h > 0 && m == 2 * h && p > 0 && 0 <= low < p && 0 <= high < m
    ensures Centre(low + p * high, m * p) == low + p * Centre(high, m)
  {
    assert m * p / 2 == h * p by { assert m * p == 2 * (h * p); }
    if high < h {
      MulMono(h - 1, high, p);
      assert p * high == high * p && (h - 1) * p == h * p - p;
    } else {
      MulMono(high, h, p);
      assert p * high == high * p && p * (high - m) == p * high - m * p;
    }
  }

  /** Between -h and h in the high limb is between -hp and hp in all. */
  lemma RangeByHigh(h: int, p: int, low: int, s: int)
    requires p > 0 && 0 <= low < p
    ensures -(h * p) <= low + p * s < h * p <==> -h <= s < h
  {
    if s >= h { MulMono(s, h, p); } else { MulMono(h - 1, s, p); assert (h - 1) * p == h * p - p; }
    if s >= -h { MulMono(s, -h, p); } else { MulMono(-h - 1, s, p); assert (-h - 1) * p == -(h * p) - p; }
    assert p * s == s * p && (-h) * p == -(h * p);
  }

  lemma PowerPositive(m: int, k: nat)
    requires m > 0
    ensures Power(m, k) > 0
  {
    if k > 0 { PowerPositive(m, k - 1); MulMono(Power(m, k - 1), 1, m); }
  }

  lemma {:induction false} ChainLimbs(m: int, x: seq<nat>, y: seq<nat>, cin: nat)
    requires m > 0 && |x| == |y|
    ensures Limbs(m, Values(AddChain(m, x, y, cin))) && Limbs(m, Values(SubChain(m, x, y, cin)))
  {
    if x != [] {
      var a, d := AddMod(m, x[0], y[0], cin), SubMod(m, x[0], y[0], cin);
      ChainLimbs(m, x[1..], y[1..], B(a.carry));
      ChainLimbs(m, x[1..], y[1..], B(d.carry));
      var outs, diffs := AddChain(m, x, y, cin), SubChain(m, x, y, cin);
      assert Values(outs)[1..] == Values(AddChain(m, x[1..], y[1..], B(a.carry)));
      assert Values(diffs)[1..] == Values(SubChain(m, x[1..], y[1..], B(d.carry)));
      forall i | 0 <= i < |x| ensures Values(outs)[i] < m && Values(diffs)[i] < m {
        if i > 0 { assert Values(outs)[i] == Values(outs)[1..][i - 1]
            && Values(diffs)[i] == Values(diffs)[1..][i - 1]; }
      }
    }
  }

  /** The signed reading of a number of many limbs. */
  function SignedValue(m: int, limbs: seq<nat>): int {
    Centre(Number(m, limbs), Power(m, |limbs|))
  }

  lemma SignedLast(m: int, h: int, limbs: seq<nat>)
    requires h > 0 && m == 2 * h && limbs != [] && Limbs(m, limbs)
    ensures var n := |limbs| - 1;
            && 0 <= Number(m, limbs[..n]) < Power(m, n) && Power(m, n) > 0
            && SignedValue(m, limbs) == Number(m, limbs[..n]) + Power(m, n) * Centre(limbs[n], m)
  {
    var n := |limbs| - 1;
    NumberLast(m, limbs);
    NumberBound(m, limbs[..n]);
    PowerPositive(m, n);
    SignedNumber(m, h, Number(m, limbs[..n]), Power(m, n), limbs[n]);
  }

  lemma SignOf(low: int, p: int, c: int)
    requires 0 <= low < p
    ensures low + p * c < 0 <==> c < 0
  {
    if c < 0 { MulMono(-1, c, p); assert p * c == c * p; } else { MulMono(c, 0, p); assert p * c == c * p; }
  }

  lemma SignByLast(m: int, h: int, limbs: seq<nat>)
    requires h > 0 && m == 2 * h && limbs != [] && Limbs(m, limbs)
    ensures limbs[|limbs| - 1] >= m / 2 <==> SignedValue(m, limbs) < 0
  {
    var n := |limbs| - 1;
    SignedLast(m, h, limbs);
    SignOf(Number(m, limbs[..n]), Power(m, n), Centre(limbs[n], m));
  }

  lemma HighSum(p: int, x: int, y: int, cin: int, low: int, c: int, cx: int, cy: int)
    requires low + c * p == x + y + cin
    ensures (x + p * cx) + (y + p * cy) + cin == low + p * (cx + cy + c)
  {
    assert p * (cx + cy + c) == p * cx + p * cy + c * p;
  }

  /** t is out of the signed range of k limbs. */
  predicate OutOfRange(m: int, k: nat, t: int) {
    !(-(Power(m, k) / 2) <= t < Power(m, k) / 2)
  }

  lemma RangeOfAll(m: int, h: int, k: nat, low: int, s: int)
    requires h > 0 && m == 2 * h && k > 0 && 0 <= low < Power(m, k - 1)
    ensures OutOfRange(m, k, low + Power(m, k - 1) * s) <==> !(-(m / 2) <= s < m / 2)
  {
    var p := Power(m, k - 1);
    RangeByHigh(h, p, low, s);
    assert Power(m, k) == 2 * (h * p) by { assert m * p == 2 * (h * p); }
  }

  /** The signed sum of two numbers, by their most significant limbs and the carry into them. */
  lemma SignedSum(m: int, h: int, x: seq<nat>, y: seq<nat>, cin: nat) returns (low: int)
    requires h > 0 && m == 2 * h && |x| == |y| && x != [] && Limbs(m, x) && Limbs(m, y) && cin <= 1
    ensures 0 <= low < Power(m, |x| - 1)
    ensures var n := |x| - 1;
            SignedValue(m, x) + SignedValue(m, y) + cin
            == low + Power(m, n) * (Centre(x[n], m) + Centre(y[n], m) + LastCarry(AddChain(m, x[..n], y[..n], cin),
                cin))
  {
    var n := |x| - 1;
    var below := AddChain(m, x[..n], y[..n], cin);
    low := Number(m, Values(below));
    AddChainExact(m, x[..n], y[..n], cin);
    SignedLast(m, h, x);
    SignedLast(m, h, y);
    ChainLimbs(m, x[..n], y[..n], cin);
    NumberBound(m, Values(below));
    HighSum(Power(m, n), Number(m, x[..n]), Number(m, y[..n]), cin, low, LastCarry(below, cin), Centre(x[n], m),
        Centre(y[n], m));
  }

  lemma SignedDifference(m: int, h: int, x: seq<nat>, y: seq<nat>, bin: nat) returns (low: int)
    requires h > 0 && m == 2 * h && |x| == |y| && x != [] && Limbs(m, x) && Limbs(m, y) && bin <= 1
    ensures 0 <= low < Power(m, |x| - 1)
    ensures var n := |x| - 1;
            SignedValue(m, x) - SignedValue(m, y) - bin
            == low + Power(m, n) * (Centre(x[n], m) - Centre(y[n], m) - LastCarry(SubChain(m, x[..n], y[..n], bin),
                bin))
  {
    var n := |x| - 1;
    var below := SubChain(m, x[..n], y[..n], bin);
    low := Number(m, Values(below));
    SubChainExact(m, x[..n], y[..n], bin);
    SignedLast(m, h, x);
    SignedLast(m, h, y);
    ChainLimbs(m, x[..n], y[..n], bin);
    NumberBound(m, Values(below));
    var c: int := LastCarry(below, bin);
    HighDifference(Power(m, n), Number(m, x[..n]), Number(m, y[..n]), bin, low, c, Centre(x[n], m), Centre(y[n], m));
  }

  lemma HighDifference(p: int, x: int, y: int, bin: int, low: int, c: int, cx: int, cy: int)
    requires low - c * p == x - y - bin
    ensures (x + p * cx) - (y + p * cy) - bin == low + p * (cx - cy - c)
  {
    assert p * (cx - cy - c) == p * cx - p * cy - c * p;
  }

  /** The last flags of a chain of additions are those of the whole numbers: O exactly when the
      signed sum is out of range, S exactly when the result read as signed is negative. */
  lemma AddChainFlags(m: int, h: int, x: seq<nat>, y: seq<nat>, cin: nat)
    requires h > 0 && m == 2 * h && |x| == |y| && x != [] && Limbs(m, x) && Limbs(m, y) && cin <= 1
    ensures var outs := AddChain(m, x, y, cin);
            && (outs[|x| - 1].overflow <==> OutOfRange(m, |x|, SignedValue(m, x) + SignedValue(m, y) + cin))
            && (outs[|x| - 1].sign <==> SignedValue(m, Values(outs)) < 0)
  {
    var n := |x| - 1;
    var low := SignedSum(m, h, x, y, cin);
    AddChainLast(m, x, y, cin);
    RangeOfAll(m, h, |x|, low, Centre(x[n], m) + Centre(y[n], m) + LastCarry(AddChain(m, x[..n], y[..n], cin), cin));
    ChainLimbs(m, x, y, cin);
    SignByLast(m, h, Values(AddChain(m, x, y, cin)));
  }

  /** Dually for subtraction. */
  lemma SubChainFlags(m: int, h: int, x: seq<nat>, y: seq<nat>, bin: nat)
    requires h > 0 && m == 2 * h && |x| == |y| && x != [] && Limbs(m, x) && Limbs(m, y) && bin <= 1
    ensures var outs := SubChain(m, x, y, bin);
            && (outs[|x| - 1].overflow <==> OutOfRange(m, |x|, SignedValue(m, x) - SignedValue(m, y) - bin))
            && (outs[|x| - 1].sign <==> SignedValue(m, Values(outs)) < 0)
  {
    var n := |x| - 1;
    var low := SignedDifference(m, h, x, y, bin);
    SubChainLast(m, x, y, bin);
    RangeOfAll(m, h, |x|, low, Centre(x[n], m) - Centre(y[n], m) - LastCarry(SubChain(m, x[..n], y[..n], bin), bin));
    ChainLimbs(m, x, y, bin);
    SignByLast(m, h, Values(SubChain(m, x, y, bin)));
  }

  // ----------------------------------------------- the chains as programs

  /** Three registers holding a limb of the result and of the two operands. */
  datatype Limb = Limb(d: Reg, a: Reg, b: Reg)

  /** No result overwrites an operand that a later instruction reads, or an earlier result. */
  predicate Undisturbed(rs: seq<Limb>) {
    forall i, j :: 0 <= i < j < |rs| ==> rs[i].d != rs[j].a && rs[i].d != rs[j].b && rs[i].d != rs[j].d
  }

  /** One flag-setting `add` per limb, the first with the given carry operand, the others
      with carry in. */
  function AddLimbs(s: State, size: Size, rs: seq<Limb>, carry: bool): State
    decreases |rs|
  {
    if rs == [] then s
    else
      AddLimbs(ExecAdd(s, size, Some(rs[0].d), rs[0].a, AluReg(rs[0].b), carry, true).s, size, rs[1..], true)
  }

  function SubLimbs(s: State, size: Size, rs: seq<Limb>, borrow: bool): State
    decreases |rs|
  {
    if rs == [] then s
    else
      SubLimbs(ExecSub(s, size, Some(rs[0].d), rs[0].a, AluReg(rs[0].b), borrow, true).s, size, rs[1..], true)
  }

  /** The operands and the result in a register file. */
  function As(regs: Regs, size: Size, rs: seq<Limb>): seq<nat> {
    seq(|rs|, i requires 0 <= i < |rs| => Low(regs, rs[i].a, size))
  }

  function Bs(regs: Regs, size: Size, rs: seq<Limb>): seq<nat> {
    seq(|rs|, i requires 0 <= i < |rs| => Low(regs, rs[i].b, size))
  }

  function Ds(regs: Regs, size: Size, rs: seq<Limb>): seq<nat> {
    seq(|rs|, i requires 0 <= i < |rs| => Low(regs, rs[i].d, size))
  }

  lemma ResidueAgain(x: int, size: Size)
    ensures x % Modulus(size) % Modulus(size) == x % Modulus(size)
  {
  }

  lemma AddResidue(size: Size, x: u64, y: u64, c: nat)
    ensures AddOut(size, x, y, c).value % Modulus(size) == AddOut(size, x, y, c).value
  {
    ResidueAgain(x % Modulus(size) + y % Modulus(size) + c, size);
  }

  lemma SubResidue(size: Size, x: u64, y: u64, c: nat)
    ensures SubOut(size, x, y, c).value % Modulus(size) == SubOut(size, x, y, c).value
  {
    ResidueAgain(x % Modulus(size) - y % Modulus(size) - c, size);
  }

  /** One instruction of the chain. */
  lemma AddOneLimb(s: State, size: Size, r: Limb, carry: bool) returns (t: State, out: AluOut)
    ensures ExecAdd(s, size, Some(r.d), r.a, AluReg(r.b), carry, true) == Done(t)
    ensures out == AddMod(Modulus(size), Low(s.regs, r.a, size), Low(s.regs, r.b, size), B(carry && s.flags.carry))
    ensures Low(t.regs, r.d, size) == out.value && t.flags == SetAlu(s.flags, out)
    ensures forall q: Reg :: q != r.d ==> t.regs[q] == s.regs[q]
  {
    out := AddOut(size, s.regs[r.a], s.regs[r.b], B(carry && s.flags.carry));
    t := s.(regs := SetReg(s.regs, r.d, size, out.value), flags := SetAlu(s.flags, out));
    SetLowParts(s.regs[r.d], size, out.value);
    AddResidue(size, s.regs[r.a], s.regs[r.b], B(carry && s.flags.carry));
  }

  lemma SubOneLimb(s: State, size: Size, r: Limb, borrow: bool) returns (t: State, out: AluOut)
    ensures ExecSub(s, size, Some(r.d), r.a, AluReg(r.b), borrow, true) == Done(t)
    ensures out == SubMod(Modulus(size), Low(s.regs, r.a, size), Low(s.regs, r.b, size), B(borrow && s.flags.carry))
    ensures Low(t.regs, r.d, size) == out.value && t.flags == SetAlu(s.flags, out)
    ensures forall q: Reg :: q != r.d ==> t.regs[q] == s.regs[q]
  {
    out := SubOut(size, s.regs[r.a], s.regs[r.b], B(borrow && s.flags.carry));
    t := s.(regs := SetReg(s.regs, r.d, size, out.value), flags := SetAlu(s.flags, out));
    SetLowParts(s.regs[r.d], size, out.value);
    SubResidue(size, s.regs[r.a], s.regs[r.b], B(borrow && s.flags.carry));
  }

  /** The operands of later limbs are still there after the first. */
  lemma LaterOperands(regs: Regs, regs': Regs, size: Size, rs: seq<Limb>)
    requires rs != [] && Undisturbed(rs) && forall q: Reg :: q != rs[0].d ==> regs'[q] == regs[q]
    ensures As(regs', size, rs[1..]) == As(regs, size, rs)[1..]
    ensures Bs(regs', size, rs[1..]) == Bs(regs, size, rs)[1..]
  {
    forall i | 0 <= i < |rs| - 1
      ensures As(regs', size, rs[1..])[i] == As(regs, size, rs)[1..][i]
              && Bs(regs', size, rs[1..])[i] == Bs(regs, size, rs)[1..][i]
    {
      assert rs[1..][i] == rs[i + 1] && rs[0].d != rs[i + 1].a && rs[0].d != rs[i + 1].b;
    }
  }

  /** The program computes the chain: limb by limb the results are in the destinations, and the
      flags are those of the last limb. */
  lemma {:induction false} AddLimbsRun(s: State, size: Size, rs: seq<Limb>, carry: bool)
    requires Undisturbed(rs)
    ensures var t := AddLimbs(s, size, rs, carry);
            var outs := AddChain(Modulus(size), As(s.regs, size, rs), Bs(s.regs, size, rs), B(carry && s.flags.carry));
            && Ds(t.regs, size, rs) == Values(outs)
            && (rs != [] ==> t.flags == SetAlu(s.flags, outs[|rs| - 1]))
            && forall q: Reg :: (forall i :: 0 <= i < |rs| ==> rs[i].d != q) ==> t.regs[q] == s.regs[q]
    decreases |rs|
  {
    if rs != [] {
      var u, out := AddOneLimb(s, size, rs[0], carry);
      LaterOperands(s.regs, u.regs, size, rs);
      AddLimbsRun(u, size, rs[1..], true);
      var t := AddLimbs(s, size, rs, carry);
      forall i | 0 < i < |rs| ensures rs[i].d != rs[0].d && rs[1..][i - 1] == rs[i] { }
      var rest := AddChain(Modulus(size), As(u.regs, size, rs[1..]), Bs(u.regs, size, rs[1..]), B(u.flags.carry));
      ResultsJoin(s.regs, u.regs, t.regs, size, rs, out, rest);
    }
  }

  lemma {:induction false} SubLimbsRun(s: State, size: Size, rs: seq<Limb>, borrow: bool)
    requires Undisturbed(rs)
    ensures var t := SubLimbs(s, size, rs, borrow);
            var outs := SubChain(Modulus(size), As(s.regs, size, rs), Bs(s.regs, size, rs), B(borrow && s.flags.carry));
            && Ds(t.regs, size, rs) == Values(outs)
            && (rs != [] ==> t.flags == SetAlu(s.flags, outs[|rs| - 1]))
            && forall q: Reg :: (forall i :: 0 <= i < |rs| ==> rs[i].d != q) ==> t.regs[q] == s.regs[q]
    decreases |rs|
  {
    if rs != [] {
      var u, out := SubOneLimb(s, size, rs[0], borrow);
      LaterOperands(s.regs, u.regs, size, rs);
      SubLimbsRun(u, size, rs[1..], true);
      var t := SubLimbs(s, size, rs, borrow);
      forall i | 0 < i < |rs| ensures rs[i].d != rs[0].d && rs[1..][i - 1] == rs[i] { }
      var rest := SubChain(Modulus(size), As(u.regs, size, rs[1..]), Bs(u.regs, size, rs[1..]), B(u.flags.carry));
      ResultsJoin(s.regs, u.regs, t.regs, size, rs, out, rest);
    }
  }

  lemma ResultsJoin(regs: Regs, regs1: Regs, regs2: Regs, size: Size, rs: seq<Limb>, out: AluOut, rest: seq<AluOut>)
    requires rs != [] && |rest| == |rs| - 1 && Undisturbed(rs)
    requires Low(regs1, rs[0].d, size) == out.value && Ds(regs2, size, rs[1..]) == Values(rest)
    requires forall q: Reg :: (forall i :: 0 <= i < |rs[1..]| ==> rs[1..][i].d != q) ==> regs2[q] == regs1[q]
    ensures Ds(regs2, size, rs) == Values([out] + rest)
  {
    var ds, vs := Ds(regs2, size, rs), Values([out] + rest);
    forall i | 0 <= i < |rs| ensures ds[i] == vs[i] {
      if i == 0 {
        forall j | 0 <= j < |rs[1..]| ensures rs[1..][j].d != rs[0].d { assert rs[1..][j] == rs[j + 1]; }
      } else {
        assert ds[i] == Ds(regs2, size, rs[1..])[i - 1] by { assert rs[1..][i - 1] == rs[i]; }
      }
    }
  }

  lemma LowsAreLimbs(regs: Regs, size: Size, rs: seq<Limb>)
    ensures Limbs(Modulus(size), As(regs, size, rs)) && Limbs(Modulus(size), Bs(regs, size, rs))
  {
  }

  lemma ModulusHalf(size: Size) returns (h: int)
    ensures h > 0 && Modulus(size) == 2 * h
  {
    h := Modulus(size) / 2;
  }

  /** Adding numbers of any number of registers: the results are exactly the low limbs of the
      sum and C its carry out; O says whether the signed sum fits in all limbs together, and
      S is the sign of the result. */
  lemma MultiLimbAdd(s: State, size: Size, rs: seq<Limb>, carry: bool)
    requires Undisturbed(rs) && rs != []
    ensures var m, t, k := Modulus(size), AddLimbs(s, size, rs, carry), |rs|;
            var x, y, cin := As(s.regs, size, rs), Bs(s.regs, size, rs), B(carry && s.flags.carry);
            && Number(m, Ds(t.regs, size, rs)) + B(t.flags.carry) * Power(m, k) == Number(m, x) + Number(m, y) + cin
            && (t.flags.overflow <==> OutOfRange(m, k, SignedValue(m, x) + SignedValue(m, y) + cin))
            && (t.flags.sign <==> SignedValue(m, Ds(t.regs, size, rs)) < 0)
  {
    var m, x, y, cin := Modulus(size), As(s.regs, size, rs), Bs(s.regs, size, rs), B(carry && s.flags.carry);
    var h := ModulusHalf(size);
    AddLimbsRun(s, size, rs, carry);
    LowsAreLimbs(s.regs, size, rs);
    AddChainExact(m, x, y, cin);
    AddChainFlags(m, h, x, y, cin);
  }

  /** And subtracting them, where C is the final borrow. */
  lemma MultiLimbSub(s: State, size: Size, rs: seq<Limb>, borrow: bool)
    requires Undisturbed(rs) && rs != []
    ensures var m, t, k := Modulus(size), SubLimbs(s, size, rs, borrow), |rs|;
            var x, y, bin := As(s.regs, size, rs), Bs(s.regs, size, rs), B(borrow && s.flags.carry);
            && Number(m, Ds(t.regs, size, rs)) - B(t.flags.carry) * Power(m, k) == Number(m, x) - Number(m, y) - bin
            && (t.flags.overflow <==> OutOfRange(m, k, SignedValue(m, x) - SignedValue(m, y) - bin))
            && (t.flags.sign <==> SignedValue(m, Ds(t.regs, size, rs)) < 0)
  {
    var m, x, y, bin := Modulus(size), As(s.regs, size, rs), Bs(s.regs, size, rs), B(borrow && s.flags.carry);
    var h := ModulusHalf(size);
    SubLimbsRun(s, size, rs, borrow);
    LowsAreLimbs(s.regs, size, rs);
    SubChainExact(m, x, y, bin);
    SubChainFlags(m, h, x, y, bin);
  }
}
