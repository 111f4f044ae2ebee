/**
 Instruction templates as data.

 A template is the text between brackets in an instruction table, for example
 "1101110000000000000000000ssaaaaa".  Its last character describes bit 0.  The
 assembler scatters operand bits into a template; the emulator, from its own copy,
 computes a mask, the value expected under the mask, and the operand fields.
 The two loops are stated as methods and proved to compute `Scatter`, `Mask`,
 `Value` and `Gather`, and these functions are proved to be inverse to each other
 for every template.
 */
module Templates {
  import opened Bits

  /** The operand bound to each variable letter. */
  type Env = char -> u64

  /** Both macros accept exactly 32 characters; nothing below needs more than this.
      A character other than '0' and '1' is a variable. */
  predicate IsTemplate(t: string) {
    |t| <= 32
  }

  predicate IsVariable(c: char) {
    c != '0' && c != '1'
  }

  /** The character that describes bit i. */
  function At(t: string, i: nat): char
    requires i < |t|
  {
    t[|t| - 1 - i]
  }

  predicate Fixed(t: string, i: nat)
    requires i < |t|
  {
    At(t, i) == '0' || At(t, i) == '1'
  }

  /** How many of the bits below bit i belong to variable c. */
  function Occ(t: string, c: char, i: nat): (r: nat)
    requires i <= |t|
    ensures r <= i
  {
    if i == 0 then 0 else Occ(t, c, i - 1) + B(At(t, i - 1) == c)
  }

  // ------------------------------------------------------------- encoding

  /** Bit i of the encoded word. */
  predicate WordBit(t: string, env: Env, i: nat)
    requires i < |t|
  {
    if Fixed(t, i) then At(t, i) == '1'
    else Bit(env(At(t, i)), Occ(t, At(t, i), i))
  }

  /** The low i bits of the encoded word. */
  function Scatter(t: string, env: Env, i: nat): (r: nat)
    requires i <= |t|
    ensures r < Pow2(i)
  {
    if i == 0 then 0
    else Scatter(t, env, i - 1) + (if WordBit(t, env, i - 1) then Pow2(i - 1) else 0)
  }

  lemma {:induction false} ScatterBit(t: string, env: Env, i: nat, j: nat)
    requires j < i <= |t|
    ensures Bit(Scatter(t, env, i), j) == WordBit(t, env, j)
  {
    AddTopBit(Scatter(t, env, i - 1), i - 1, j);
    if j == i - 1 {
      HighBitsZero(Scatter(t, env, i - 1), i - 1, j);
    } else {
      ScatterBit(t, env, i - 1, j);
    }
  }

  // ------------------------------------------------------------- decoding

  function Mask(t: string, i: nat): (r: nat)
    requires i <= |t|
    ensures r < Pow2(i)
  {
    if i == 0 then 0 else Mask(t, i - 1) + (if Fixed(t, i - 1) then Pow2(i - 1) else 0)
  }

  function Value(t: string, i: nat): (r: nat)
    requires i <= |t|
    ensures r < Pow2(i)
  {
    if i == 0 then 0 else Value(t, i - 1) + (if At(t, i - 1) == '1' then Pow2(i - 1) else 0)
  }

  /** The emulator's test for one match arm. */
  predicate Matches(t: string, w: u32)
    requires IsTemplate(t)
  {
    Below32(Mask(t, |t|), |t|);
    And(w, Mask(t, |t|)) == Value(t, |t|)
  }

  /** The value gathered for variable c from the low i bits of w. */
  function Gather(t: string, w: nat, c: char, i: nat): (r: nat)
    requires i <= |t|
    ensures r < Pow2(Occ(t, c, i))
  {
    if i == 0 then 0
    else Gather(t, w, c, i - 1) + (if At(t, i - 1) == c && Bit(w, i - 1) then Pow2(Occ(t, c, i - 1)) else 0)
  }

  lemma Below32(x: nat, n: nat)
    requires x < Pow2(n) && n <= 32
    ensures x < 0x1_0000_0000
  {
    Pow2Values();
    Pow2Mono(n, 32);
  }

  lemma {:induction false} MaskBits(t: string, i: nat, j: nat)
    requires j < i <= |t|
    ensures Bit(Mask(t, i), j) == Fixed(t, j)
    ensures Bit(Value(t, i), j) == (At(t, j) == '1')
  {
    AddTopBit(Mask(t, i - 1), i - 1, j);
    AddTopBit(Value(t, i - 1), i - 1, j);
    if j == i - 1 {
      HighBitsZero(Mask(t, i - 1), i - 1, j);
      HighBitsZero(Value(t, i - 1), i - 1, j);
    } else {
      MaskBits(t, i - 1, j);
    }
  }

  /** Every fixed bit of t is as the template says. */
  predicate FixedBitsAgree(t: string, w: nat) {
    forall j :: 0 <= j < |t| && Fixed(t, j) ==> Bit(w, j) == (At(t, j) == '1')
  }

  /** The mask-and-compare test holds exactly when every fixed bit agrees. */
  lemma MatchesIff(t: string, w: u32)
    requires IsTemplate(t)
    ensures Matches(t, w) <==> FixedBitsAgree(t, w)
  {
    var n := |t|;
    var m, v := Mask(t, n), Value(t, n);
    Below32(m, n);
    Below32(v, n);
    forall j | 0 <= j < n
      ensures Bit(And(w, m), j) == (Bit(w, j) && Fixed(t, j))
      ensures Bit(v, j) == (At(t, j) == '1')
    {
      AndBit(w, m, j);
      MaskBits(t, n, j);
    }
    if FixedBitsAgree(t, w) {
      forall j | 0 <= j < 64 ensures Bit(And(w, m), j) == Bit(v, j) {
        if j >= n {
          AndBit(w, m, j);
          HighBitsZero(m, n, j);
          HighBitsZero(v, n, j);
        }
      }
      SameWords(And(w, m), v);
    }
  }

  lemma {:induction false} GatherBit(t: string, w: nat, c: char, i: nat, j: nat)
    requires j < i <= |t| && At(t, j) == c
    ensures Occ(t, c, j) < Occ(t, c, i)
    ensures Bit(Gather(t, w, c, i), Occ(t, c, j)) == Bit(w, j)
  {
    var g, k := Gather(t, w, c, i - 1), Occ(t, c, i - 1);
    AddTopBit(g, k, Occ(t, c, j));
    if j == i - 1 {
      HighBitsZero(g, k, k);
    } else {
      GatherBit(t, w, c, i - 1, j);
    }
  }

  lemma {:induction false} ModStep(x: nat, k: nat)
    ensures x % Pow2(k + 1) == x % Pow2(k) + (if Bit(x, k) then Pow2(k) else 0)
    decreases k
  {
    HalveDivMod(x, k);
    if k > 0 {
      HalveDivMod(x, k - 1);
      ModStep(x / 2, k - 1);
    }
  }

  // -------------------------------------------------------- main theorems

  lemma {:induction false} GatherScattered(t: string, env: Env, w: nat, c: char, i: nat)
    requires i <= |t| && IsVariable(c)
    requires forall j :: 0 <= j < |t| ==> Bit(w, j) == WordBit(t, env, j)
    ensures Gather(t, w, c, i) == env(c) % Pow2(Occ(t, c, i))
  {
    if i > 0 {
      GatherScattered(t, env, w, c, i - 1);
      if At(t, i - 1) == c {
        ModStep(env(c), Occ(t, c, i - 1));
        assert Bit(w, i - 1) == WordBit(t, env, i - 1);
      }
    }
  }

  /** Encode, then decode: the word passes the test of its own template, and every
      field is the operand reduced to as many bits as the template gives it. */
  lemma EncodeThenDecode(t: string, env: Env)
    requires IsTemplate(t)
    ensures Scatter(t, env, |t|) < 0x1_0000_0000
    ensures Matches(t, Scatter(t, env, |t|))
    ensures forall c: char :: IsVariable(c) ==>
              Gather(t, Scatter(t, env, |t|), c, |t|) == env(c) % Pow2(Occ(t, c, |t|))
  {
    var w := Scatter(t, env, |t|);
    Below32(w, |t|);
    forall j | 0 <= j < |t| ensures Bit(w, j) == WordBit(t, env, j) {
      ScatterBit(t, env, |t|, j);
    }
    MatchesIff(t, w);
    forall c: char | IsVariable(c)
      ensures Gather(t, w, c, |t|) == env(c) % Pow2(Occ(t, c, |t|))
    {
      GatherScattered(t, env, w, c, |t|);
    }
  }

  function Fields(t: string, w: u32): Env
    requires IsTemplate(t)
  {
    (c: char) => FieldOf(t, w, c)
  }

  function FieldOf(t: string, w: u32, c: char): u32
    requires IsTemplate(t)
  {
    Pow2Mono(Occ(t, c, |t|), 32);
    Pow2Values();
    Gather(t, w, c, |t|)
  }

  /** Decode, then encode: a matching word is rebuilt exactly from its fields. */
  lemma DecodeThenEncode(t: string, w: u32)
    requires IsTemplate(t) && |t| == 32 && Matches(t, w)
    ensures Scatter(t, Fields(t, w), 32) == w
  {
    var env := Fields(t, w);
    MatchesIff(t, w);
    forall j | 0 <= j < 32 ensures Bit(Scatter(t, env, 32), j) == Bit(w, j) {
      ScatterBit(t, env, 32, j);
      if !Fixed(t, j) {
        GatherBit(t, w, At(t, j), 32, j);
      }
    }
    Pow2Values();
    SameBits(Scatter(t, env, 32), w, 32);
  }

  // ----------------------------------------------- a variable fixed in advance

  /** u under e writes the same bits as t under e', as when a pseudo-instruction fixes some
      operands of another instruction. */
  predicate Specialises(u: string, e: Env, t: string, e': Env) {
    |u| == |t| && forall j :: 0 <= j < |t| ==> WordBit(u, e, j) == WordBit(t, e', j)
  }

  lemma {:induction false} SpecialisedWord(u: string, e: Env, t: string, e': Env, i: nat)
    requires Specialises(u, e, t, e') && i <= |t|
    ensures Scatter(u, e, i) == Scatter(t, e', i)
  {
    if i > 0 { SpecialisedWord(u, e, t, e', i - 1); }
  }

  // ------------------------------------------------------ contiguous fields

  /** Variable c occupies exactly the n bits from bit lo upward. */
  predicate FieldAt(t: string, c: char, lo: nat, n: nat) {
    lo + n <= |t| && forall j :: 0 <= j < |t| ==> (At(t, j) == c <==> lo <= j < lo + n)
  }

  lemma {:induction false} FieldWidth(t: string, c: char, lo: nat, n: nat, i: nat)
    requires FieldAt(t, c, lo, n) && i <= |t|
    ensures Occ(t, c, i) == if i <= lo then 0 else if i <= lo + n then i - lo else n
  {
    if i > 0 {
      FieldWidth(t, c, lo, n, i - 1);
      assert At(t, i - 1) == c <==> lo <= i - 1 < lo + n;
    }
  }

  // -------------------------------------------------------- the macro loops

  /** The assembler's loop over the reversed characters of a template. */
  method EncodeLoop(t: string, env: Env) returns (result: u32)
    requires IsTemplate(t)
    ensures result == Scatter(t, env, |t|)
  {
    var word: u64 := 0;
    var indices: map<char, nat> := map[];
    var i := 0;
    while i < |t|
      invariant 0 <= i <= |t|
      invariant word == Scatter(t, env, i)
      invariant forall c: char :: IsVariable(c) ==>
                  (if c in indices then indices[c] else 0) == Occ(t, c, i)
    {
      var c := t[|t| - 1 - i];
      assert c == At(t, i);
      Below32(word, i);
      SetTopBit(word, i);
      if c == '0' {
      } else if c == '1' {
        word := Or(word, Shl(1, i));
      } else {
        var k := if c in indices then indices[c] else 0;
        SingleBitField(env(c), k);
        word := Or(word, Shl(Shr(And(env(c), Shl(1, k)), k), i));
        indices := indices[c := k + 1];
      }
      i := i + 1;
    }
    Below32(word, |t|);
    result := word;
  }

  lemma SetTopBit(word: u64, i: nat)
    requires i < 32 && word < Pow2(i)
    ensures Shl(1, i) == Pow2(i) && Shl(0, i) == 0
    ensures Or(word, Pow2(i)) == word + Pow2(i) && Or(word, 0) == word
  {
    ShlOne(i);
    DivideSelf(Pow2(i));
    OrAdds(Pow2(i), i, word);
    OrAdds(0, i, word);
  }

  /** `(x & (1 << k)) >> k` is bit k of x. */
  lemma SingleBitField(x: u64, k: nat)
    requires k < 32
    ensures Shr(And(x, Shl(1, k)), k) == B(Bit(x, k))
  {
    ShlOne(k);
    AndSingleBit(x, k);
    DivideSelf(Pow2(k));
  }

  /** The accumulated stream and next destination bit of every variable seen in the low i bits. */
  ghost predicate FieldsUpTo(fields: map<char, (u64, nat)>, t: string, w: u32, i: nat)
    requires i <= |t|
  {
    && (forall c: char :: c in fields <==> IsVariable(c) && Occ(t, c, i) > 0)
    && (forall c: char :: c in fields ==> fields[c] == (Gather(t, w, c, i), Occ(t, c, i)))
  }

  lemma MaskStep(t: string, i: nat)
    requires i < |t| <= 32
    ensures var (m, v) := (Mask(t, i), Value(t, i));
            && m < W64 && v < W64
            && Or(m, Shl(1, i)) == m + Pow2(i) && Or(v, Shl(1, i)) == v + Pow2(i)
  {
    Below32(Mask(t, i), i);
    Below32(Value(t, i), i);
    SetTopBit(Mask(t, i), i);
    SetTopBit(Value(t, i), i);
  }

  lemma MaskFits(t: string)
    requires |t| <= 32
    ensures Mask(t, |t|) < 0x1_0000_0000 && Value(t, |t|) < 0x1_0000_0000
  {
    Below32(Mask(t, |t|), |t|);
    Below32(Value(t, |t|), |t|);
  }

  lemma FieldsSkip(fields: map<char, (u64, nat)>, t: string, w: u32, i: nat)
    requires i < |t| && FieldsUpTo(fields, t, w, i) && Fixed(t, i)
    ensures FieldsUpTo(fields, t, w, i + 1)
  {
  }

  lemma FieldsStep(fields: map<char, (u64, nat)>, t: string, w: u32, i: nat, stream: u64)
    requires i < |t| && FieldsUpTo(fields, t, w, i)
    requires !Fixed(t, i) && stream == Gather(t, w, At(t, i), i + 1)
    ensures FieldsUpTo(fields[At(t, i) := (stream, Occ(t, At(t, i), i) + 1)], t, w, i + 1)
  {
  }

  /** One more source bit or-ed into the stream of its variable. */
  lemma GatherStep(t: string, w: u32, i: nat)
    requires i < |t| <= 32
    ensures var c := At(t, i);
            var (k, g) := (Occ(t, c, i), Gather(t, w, c, i));
            && g < W64 && (k == 0 ==> g == 0)
            && Or(g, Shl(Shr(And(w, Shl(1, i)), i), k)) == Gather(t, w, c, i + 1)
  {
    var c := At(t, i);
    Below32(Gather(t, w, c, i), Occ(t, c, i));
    SingleBitField(w, i);
    SetTopBit(Gather(t, w, c, i), Occ(t, c, i));
  }

  lemma {:induction false} GatherEmpty(t: string, w: nat, c: char, i: nat)
    requires i <= |t|
    ensures Occ(t, c, i) == 0 ==> Gather(t, w, c, i) == 0
  {
  }

  /** The variable case of the loop below: source bit i joins the stream of its variable. */
  method AccumulateBit(fields: map<char, (u64, nat)>, t: string, w: u32, i: nat) returns (next: map<char, (u64, nat)>)
    requires i < |t| <= 32 && FieldsUpTo(fields, t, w, i)
    requires !Fixed(t, i)
    ensures FieldsUpTo(next, t, w, i + 1)
  {
    var c := t[|t| - 1 - i];
    var (stream, dest) := if c in fields then fields[c] else (0, 0);
    GatherStep(t, w, i);
    var joined := Or(stream, Shl(Shr(And(w, Shl(1, i)), i), dest));
    FieldsStep(fields, t, w, i, joined);
    next := fields[c := (joined, dest + 1)];
  }

  /** The fixed case: bit i joins the mask, and the value where it is one. */
  method AccumulateFixed(t: string, i: nat, mask: u64, value: u64) returns (m: u64, v: u64)
    requires i < |t| <= 32 && Fixed(t, i) && mask == Mask(t, i) && value == Value(t, i)
    ensures m == Mask(t, i + 1) && v == Value(t, i + 1)
  {
    MaskStep(t, i);
    m := Or(mask, Shl(1, i));
    v := if t[|t| - 1 - i] == '1' then Or(value, Shl(1, i)) else value;
  }

  lemma MaskSkip(t: string, i: nat)
    requires i < |t| <= 32 && !Fixed(t, i)
    ensures Mask(t, i + 1) == Mask(t, i) && Value(t, i + 1) == Value(t, i)
  {
  }

  /** The emulator's loop: mask, expected value and operand fields of one arm. */
  method DecodeLoop(t: string, w: u32) returns (mask: u32, value: u32, fields: map<char, (u64, nat)>)
    requires IsTemplate(t)
    ensures mask == Mask(t, |t|) && value == Value(t, |t|)
    ensures FieldsUpTo(fields, t, w, |t|)
  {
    var m: u64, v: u64 := 0, 0;
    fields := map[];
    var i := 0;
    while i < |t|
      invariant 0 <= i <= |t|
      invariant m == Mask(t, i) && v == Value(t, i)
      invariant FieldsUpTo(fields, t, w, i)
    {
      var c := t[|t| - 1 - i];
      if c == '0' || c == '1' {
        FieldsSkip(fields, t, w, i);
        m, v := AccumulateFixed(t, i, m, v);
      } else {
        MaskSkip(t, i);
        fields := AccumulateBit(fields, t, w, i);
      }
      i := i + 1;
    }
    MaskFits(t);
    mask, value := m, v;
  }
}
