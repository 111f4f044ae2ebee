/** Rotations and byte reversals move bits without losing any. */
module BitMoves {
  import opened Bits
  import opened Isa
  import opened Machine
  import U = Util

  /** Where each bit of a rotation comes from. */
  lemma RotatedBit(size: Size, a: nat, k: nat, i: nat)
    requires a < Modulus(size) && i < BitSize(size)
    ensures Bit(Rotr(size, a, k), i) == Bit(a, (i + k) % BitSize(size))
  {
    var w := BitSize(size);
    var r := k % w;
    ModulusIsPow2(size);
    RotateParts(a, w, r, i);
    SourceIndex(i, k, w);
  }

  lemma SourceIndex(i: nat, k: nat, w: nat)
    requires i < w
    ensures (i + k) % w == if i + k % w < w then i + k % w else i + k % w - w
  {
    var r := k % w;
    var q := k / w;
    assert k == q * w + r;
    if i + r < w { DivisionUnique(i + k, w, q, i + r); } else { DivisionUnique(i + k, w, q + 1, i + r - w); }
  }

  lemma RotateParts(a: nat, w: nat, r: nat, i: nat)
    requires r < w && a < Pow2(w) && i < w
    ensures 0 <= a / Pow2(r) && 0 <= (a % Pow2(r)) * Pow2(w - r)
    ensures Bit(a / Pow2(r) + (a % Pow2(r)) * Pow2(w - r), i) == Bit(a, if i + r < w then i + r else i + r - w)
  {
    var low, high := a % Pow2(r), a / Pow2(r);
    ShrinkDiv(a, Pow2(r));
    MulMono(low, 0, Pow2(w - r));
    HighPart(a, w, r);
    DivisionUnique(low * Pow2(w - r), Pow2(w - r), low, 0);
    SplitBit(low * Pow2(w - r), w - r, high, i);
    SplitBit(low * Pow2(w - r), w - r, 0, i);
    if i < w - r {
      DivBit(a, r, i);
    } else {
      MulBit(low, w - r, i);
      ModBit(a, r, i - (w - r));
    }
  }

  lemma QuotientBelow(a: nat, p: int, q: int)
    requires p > 0 && a < p * q
    ensures a / p < q
  {
    var x := a / p;
    assert a == x * p + a % p;
    assert q * p == p * q;
    if x >= q { MulMono(x, q, p); }
  }

  lemma HighPart(a: nat, w: nat, r: nat)
    requires r <= w && a < Pow2(w)
    ensures a / Pow2(r) < Pow2(w - r)
  {
    Pow2Add(r, w - r);
    QuotientBelow(a, Pow2(r), Pow2(w - r));
  }

  /** Rotating on by the rest of the width gives the operand back. */
  lemma RotateBack(size: Size, a: nat, k: nat)
    requires a < Modulus(size) && Rotr(size, a, k) < Modulus(size)
    ensures Rotr(size, Rotr(size, a, k), BitSize(size) - k % BitSize(size)) == a
  {
    var w := BitSize(size);
    var b := Rotr(size, a, k);
    var j := w - k % w;
    ModulusIsPow2(size);
    U.RotationFits(size, b, j);
    forall i | 0 <= i < w ensures Bit(Rotr(size, b, j), i) == Bit(a, i) {
      RotatedBit(size, b, j, i);
      RotatedBit(size, a, k, (i + j) % w);
      RoundTrip(i, k, w);
    }
    SameBits(Rotr(size, b, j), a, w);
  }

  lemma RoundTrip(i: nat, k: nat, w: nat)
    requires i < w
    ensures ((i + (w - k % w)) % w + k) % w == i
  {
    SourceIndex(i, w - k % w, w);
    var x := (i + (w - k % w)) % w;
    SourceIndex(x, k, w);
    if k % w == 0 { DivideSelf(w); } else { DivisionUnique(w - k % w, w, 0, w - k % w); }
  }

  // ------------------------------------------------------- byte reversal

  function ByteAt(v: nat, i: nat): int {
    v / Pow2(8 * i) % 0x100
  }

  /** Byte i of a reversed value is byte n - 1 - i of the value. */
  lemma {:induction false} ReversedByte(v: nat, n: nat, i: nat)
    requires i < n
    ensures ByteAt(Reversed(v, n), i) == ByteAt(v, n - 1 - i)
    decreases n
  {
    U.ReversedBound(v / 0x100, n - 1);
    if i == n - 1 {
      TopByte(v % 0x100, Reversed(v / 0x100, n - 1), n - 1);
      FirstByte(v);
    } else {
      ReversedByte(v / 0x100, n - 1, i);
      LowByte(v % 0x100, Reversed(v / 0x100, n - 1), n - 1, i);
      HigherByte(v, n - 2 - i);
    }
  }

  lemma TopByte(b: nat, rest: nat, k: nat)
    requires b < 0x100 && rest < Pow2(8 * k)
    ensures ByteAt(b * Pow2(8 * k) + rest, k) == b
  {
    DivisionUnique(b * Pow2(8 * k) + rest, Pow2(8 * k), b, rest);
    SmallResidue(b);
  }

  lemma FirstByte(v: nat)
    ensures ByteAt(v, 0) == v % 0x100
  {
    assert Pow2(0) == 1;
  }

  lemma SmallResidue(b: int)
    requires 0 <= b < 0x100
    ensures b % 0x100 == b
  {
  }

  lemma QuotientOfSum(x: int, rest: int, d: int)
    requires d > 0
    ensures (x * d + rest) / d == x + rest / d
  {
    var q, r := rest / d, rest % d;
    assert rest == q * d + r;
    assert (x + q) * d == x * d + q * d;
    DivisionUnique(x * d + rest, d, x + q, r);
  }

  /** A multiple of 2^(8k) above does not change the bytes below k. */
  lemma LowByte(b: nat, rest: nat, k: nat, i: nat)
    requires i < k
    ensures ByteAt(b * Pow2(8 * k) + rest, i) == ByteAt(rest, i)
  {
    var d, e := Pow2(8 * i), Pow2(8 * (k - 1 - i));
    Pow2Add(8 * i, 8 * (k - i));
    Pow2Add(8, 8 * (k - 1 - i));
    assert Pow2(8 * k) == d * (0x100 * e) by { assert Pow2(8) == 0x100; }
    Regroup(b, d, e);
    QuotientOfSum(b * e * 0x100, rest, d);
    MultipleAway(b * e, rest / d);
  }

  lemma Regroup(b: int, d: int, e: int)
    ensures b * (d * (0x100 * e)) == b * e * 0x100 * d
  {
  }

  lemma MultipleAway(x: int, q: int)
    ensures (x * 0x100 + q) % 0x100 == q % 0x100
  {
  }

  lemma HigherByte(v: nat, j: nat)
    ensures ByteAt(v, j + 1) == ByteAt(v / 0x100, j)
  {
    Pow2Add(8, 8 * j);
    assert Pow2(8) == 0x100;
    var p := Pow2(8 * j);
    var h := v / 0x100;
    var q, r := h / p, h % p;
    assert h == q * p + r;
    assert v == 0x100 * h + v % 0x100;
    assert 0x100 * (q * p) == q * (0x100 * p);
    DivisionUnique(v, 0x100 * p, q, 0x100 * r + v % 0x100);
  }

  lemma {:induction false} SameBytes(x: nat, y: nat, n: nat)
    requires x < Pow2(8 * n) && y < Pow2(8 * n)
    requires forall i :: 0 <= i < n ==> ByteAt(x, i) == ByteAt(y, i)
    ensures x == y
    decreases n
  {
    if n > 0 {
      Pow2Add(8, 8 * (n - 1));
      assert Pow2(8) == 0x100 && Pow2(0) == 1;
      assert ByteAt(x, 0) == ByteAt(y, 0);
      forall i | 0 <= i < n - 1 ensures ByteAt(x / 0x100, i) == ByteAt(y / 0x100, i) {
        HigherByte(x, i);
        HigherByte(y, i);
        assert ByteAt(x, i + 1) == ByteAt(y, i + 1);
      }
      SameBytes(x / 0x100, y / 0x100, n - 1);
    }
  }

  /** `bswap` undoes itself. */
  lemma ReversedTwice(v: nat, n: nat)
    requires v < Pow2(8 * n)
    ensures Reversed(Reversed(v, n), n) == v
  {
    var r := Reversed(v, n);
    U.ReversedBound(v, n);
    U.ReversedBound(r, n);
    forall i | 0 <= i < n ensures ByteAt(Reversed(r, n), i) == ByteAt(v, i) {
      ReversedByte(r, n, i);
      ReversedByte(v, n, n - 1 - i);
    }
    SameBytes(Reversed(r, n), v, n);
  }
}
