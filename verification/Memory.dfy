/** Byte-addressed little-endian memory. */
module Memory {
  import opened Bits

  /** Guest memory; its length is a machine word. */
  type Memory = m: seq<byte> | |m| < 0x1_0000_0000_0000_0000

  /** The n-byte access at address a lies inside the memory. */
  predicate Fits(m: seq<byte>, a: nat, n: nat) {
    a + n <= |m|
  }

  function ReadLe(m: seq<byte>, a: nat, n: nat): nat
    requires Fits(m, a, n)
    decreases n, a
  {
    if n == 0 then 0 else m[a] + 0x100 * ReadLe(m, a + 1, n - 1)
  }

  lemma {:induction false} ReadBound(m: seq<byte>, a: nat, n: nat)
    requires Fits(m, a, n)
    ensures ReadLe(m, a, n) < Pow2(8 * n)
    decreases n
  {
    if n > 0 {
      ReadBound(m, a + 1, n - 1);
      Pow2Add(8, 8 * (n - 1));
      ByteStep(m[a], ReadLe(m, a + 1, n - 1), Pow2(8 * (n - 1)));
    }
  }

  lemma ByteStep(b: byte, v: nat, p: int)
    requires v < p
    ensures b + 0x100 * v < 0x100 * p && Pow2(8) == 0x100
  {
  }

  function WriteLe(m: seq<byte>, a: nat, n: nat, v: nat): (r: seq<byte>)
    requires Fits(m, a, n)
    ensures |r| == |m|
    decreases n, a
  {
    if n == 0 then m else WriteLe(m[a := v % 0x100], a + 1, n - 1, v / 0x100)
  }

  /** The two memories agree outside [lo, hi). */
  predicate SameOutside(m: seq<byte>, m': seq<byte>, lo: int, hi: int) {
    |m| == |m'| && forall i :: 0 <= i < |m| && !(lo <= i < hi) ==> m'[i] == m[i]
  }

  /** The two memories agree on [lo, hi). */
  predicate SameWithin(m: seq<byte>, m': seq<byte>, lo: int, hi: int) {
    |m| == |m'| && forall i :: 0 <= i < |m| && lo <= i < hi ==> m'[i] == m[i]
  }

  lemma {:induction false} WriteFrame(m: seq<byte>, a: nat, n: nat, v: nat)
    requires Fits(m, a, n)
    ensures SameOutside(m, WriteLe(m, a, n, v), a, a + n)
    decreases n
  {
    if n > 0 { WriteFrame(m[a := v % 0x100], a + 1, n - 1, v / 0x100); }
  }

  lemma {:induction false} ReadSame(m: seq<byte>, m': seq<byte>, a: nat, n: nat)
    requires Fits(m, a, n) && SameWithin(m, m', a, a + n)
    ensures ReadLe(m', a, n) == ReadLe(m, a, n)
    decreases n
  {
    if n > 0 { ReadSame(m, m', a + 1, n - 1); }
  }

  /** A value written and read back is reduced to the width of the access. */
  lemma {:induction false} ReadBack(m: seq<byte>, a: nat, n: nat, v: nat)
    requires Fits(m, a, n)
    ensures ReadLe(WriteLe(m, a, n, v), a, n) == v % Pow2(8 * n)
    decreases n
  {
    if n > 0 {
      var m1 := m[a := v % 0x100];
      WriteFrame(m1, a + 1, n - 1, v / 0x100);
      ReadBack(m1, a + 1, n - 1, v / 0x100);
      ModBytes(v, n - 1);
    }
  }

  lemma ModBytes(v: nat, k: nat)
    ensures v % Pow2(8 * (k + 1)) == v % 0x100 + 0x100 * ((v / 0x100) % Pow2(8 * k))
  {
    Pow2Values();
    var p := Pow2(8 * k);
    Pow2Add(8, 8 * k);
    var h := v / 0x100;
    var q, r := h / p, h % p;
    ShrinkDiv(h, p);
    assert h == q * p + r;
    assert v == q * (0x100 * p) + (v % 0x100 + 0x100 * r) by {
      assert v == 0x100 * h + v % 0x100;
      assert 0x100 * (q * p) == q * (0x100 * p);
    }
    assert v % 0x100 + 0x100 * r < 0x100 * p;
    DivisionUnique(v, 0x100 * p, q, v % 0x100 + 0x100 * r);
  }

  /** Reading around a write that does not touch the bytes read. */
  lemma ReadOther(m: seq<byte>, a: nat, n: nat, v: nat, b: nat, k: nat)
    requires Fits(m, a, n) && Fits(m, b, k) && (b + k <= a || a + n <= b)
    ensures ReadLe(WriteLe(m, a, n, v), b, k) == ReadLe(m, b, k)
  {
    WriteFrame(m, a, n, v);
    ReadSame(m, WriteLe(m, a, n, v), b, k);
  }

  lemma WordRange(m: seq<byte>, a: nat)
    ensures Fits(m, a, 1) ==> ReadLe(m, a, 1) < 0x100
    ensures Fits(m, a, 2) ==> ReadLe(m, a, 2) < 0x1_0000
    ensures Fits(m, a, 4) ==> ReadLe(m, a, 4) < 0x1_0000_0000
    ensures Fits(m, a, 8) ==> ReadLe(m, a, 8) < W64
  {
    Pow2Values();
    if Fits(m, a, 1) { ReadBound(m, a, 1); }
    if Fits(m, a, 2) { ReadBound(m, a, 2); }
    if Fits(m, a, 4) { ReadBound(m, a, 4); }
    if Fits(m, a, 8) { ReadBound(m, a, 8); }
  }
}
