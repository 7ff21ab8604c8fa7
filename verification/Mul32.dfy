/** bsg_mul_32_32: four strips, three rows of 4:2 compressors, the extra row, and the final adder. */
module Mul32 {
  import opened Powers
  import opened Netlist
  import opened BoothBlocks
  import opened BoothRep
  import opened BoothStrip
  import opened BoothArray
  import opened Comp42

  type Bits = seq<bool>

  // ----- outputs as words --------------------------------------------------

  function SumBits(v: Valuation, n: nat): Bits {
    if n == 0 then [] else SumBits(v, n - 1) + [v(SO(n - 1))]
  }

  function CarryBits(v: Valuation, n: nat): Bits {
    if n == 0 then [] else CarryBits(v, n - 1) + [v(CO(n - 1))]
  }

  /** s_o and c_o of a row of blocks. */
  function SumWord(blocks: seq<Block>): Bits {
    if blocks == [] then [] else SumBits(blocks[0].v, blocks[0].rows) + SumWord(blocks[1..])
  }

  function CarryWord(blocks: seq<Block>): Bits {
    if blocks == [] then [] else CarryBits(blocks[0].v, blocks[0].rows) + CarryWord(blocks[1..])
  }

  lemma Append(b: Bits, x: bool)
    ensures Unsigned(b + [x]) == Unsigned(b) + Pow2(|b|) * Bit(x)
  {
    assert (b + [x])[..|b + [x]| - 1] == b;
  }

  lemma {:induction false} BlockBits(v: Valuation, n: nat)
    ensures |SumBits(v, n)| == n && |CarryBits(v, n)| == n
    ensures Outputs(v, n) == Unsigned(SumBits(v, n)) + 2 * Unsigned(CarryBits(v, n))
  {
    hide Unsigned, Pow2;
    if n == 0 {
      NoBits();
    } else {
      BlockBits(v, n - 1);
      Append(SumBits(v, n - 1), v(SO(n - 1)));
      Append(CarryBits(v, n - 1), v(CO(n - 1)));
      Distribute(Num(v, SO(n - 1)), 2 * Num(v, CO(n - 1)), Pow2(n - 1));
    }
  }

  function Height(blocks: seq<Block>): nat {
    if blocks == [] then 0 else blocks[0].rows + Height(blocks[1..])
  }

  lemma {:induction false} WordsValue(blocks: seq<Block>, base: nat)
    ensures |SumWord(blocks)| == |CarryWord(blocks)| == Height(blocks)
    ensures StripOutputs(blocks, base) == Pow2(base) * (Unsigned(SumWord(blocks)) + 2 * Unsigned(CarryWord(blocks)))
  {
    hide Pow2, Unsigned, Outputs, SumBits, CarryBits;
    if blocks == [] {
      NoBits();
    } else {
      var r := blocks[0].rows;
      WordsValue(blocks[1..], base + r);
      BlockBits(blocks[0].v, r);
      UnsignedConcat(SumBits(blocks[0].v, r), SumWord(blocks[1..]));
      UnsignedConcat(CarryBits(blocks[0].v, r), CarryWord(blocks[1..]));
      Pow2Add(base, r);
      WordsStep(Pow2(base), Pow2(r), Unsigned(SumBits(blocks[0].v, r)), Unsigned(CarryBits(blocks[0].v, r)),
                Unsigned(SumWord(blocks[1..])), Unsigned(CarryWord(blocks[1..])));
    }
  }

  /** A strip is as high as its vectors. */
  lemma {:induction false} StripHeight(blocks: seq<Block>, params: seq<Nibbles>, carry: bool)
    requires Stable(blocks, params, carry)
    ensures Height(blocks) == |params|
  {
    hide RepStable;
    if blocks != [] {
      StripHeight(blocks[1..], params[blocks[0].rows..], blocks[0].v(ClO));
    }
  }

  lemma NoBits()
    ensures Unsigned([]) == 0
  {
  }

  lemma WordsStep(p: int, r: int, s: int, c: int, s': int, c': int)
    ensures p * (s + 2 * c) + p * r * (s' + 2 * c') == p * (s + r * s' + 2 * (c + r * c'))
  {
    Associate(p, r, s' + 2 * c');
    Distribute(s', 2 * c', r);
    Distribute(s + 2 * c, r * s' + 2 * (r * c'), p);
  }

  // ----- a row of 4:2 compressors ------------------------------------------

  /** The block's input words are the given ones. */
  predicate Fed(v: Valuation, rows: nat, i0: Bits, i1: Bits, i2: Bits, i3: Bits)
    requires |i0| >= rows && |i1| >= rows && |i2| >= rows && |i3| >= rows
  {
    forall pos :: 0 <= pos < rows ==>
      && v(InBit(0, pos, rows)) == i0[pos] && v(InBit(1, pos, rows)) == i1[pos]
      && v(InBit(2, pos, rows)) == i2[pos] && v(InBit(3, pos, rows)) == i3[pos]
  }

  /** bsg_mul_comp42_rep_rep: the input words are cut up among the blocks, which pass cl_o on to cr_i. */
  predicate ChainStable(blocks: seq<Block>, i0: Bits, i1: Bits, i2: Bits, i3: Bits, carry: bool) {
    && |i0| == |i1| == |i2| == |i3|
    && if blocks == [] then i0 == []
       else
         && 0 < blocks[0].rows <= |i0| && blocks[0].v(CrI) == carry
         && CompStable(blocks[0].v, blocks[0].rows, blocks[0].hard)
         && Fed(blocks[0].v, blocks[0].rows, i0, i1, i2, i3)
         && ChainStable(blocks[1..], i0[blocks[0].rows..], i1[blocks[0].rows..], i2[blocks[0].rows..], i3[blocks[0].rows..],
                        blocks[0].v(ClO))
  }

  lemma {:induction false} InputIs(v: Valuation, w: nat, k: nat, rows: nat, word: Bits)
    requires k <= rows <= |word| && forall pos :: 0 <= pos < rows ==> v(InBit(w, pos, rows)) == word[pos]
    ensures InputWord(v, w, k, rows) == Unsigned(word[..k])
  {
    if k > 0 {
      InputIs(v, w, k - 1, rows, word);
      assert word[..k][..k - 1] == word[..k - 1];
    }
  }

  lemma BlockInputs(v: Valuation, rows: nat, i0: Bits, i1: Bits, i2: Bits, i3: Bits)
    requires |i0| >= rows && |i1| >= rows && |i2| >= rows && |i3| >= rows && Fed(v, rows, i0, i1, i2, i3)
    ensures InputWord(v, 0, rows, rows) + InputWord(v, 1, rows, rows) + InputWord(v, 2, rows, rows) + InputWord(v, 3, rows, rows)
         == Unsigned(i0[..rows]) + Unsigned(i1[..rows]) + Unsigned(i2[..rows]) + Unsigned(i3[..rows])
  {
    hide Unsigned, InputWord;
    InputIs(v, 0, rows, rows, i0);
    InputIs(v, 1, rows, rows, i1);
    InputIs(v, 2, rows, rows, i2);
    InputIs(v, 3, rows, rows, i3);
  }

  /** Cutting a word in two. */
  lemma Cut(w: Bits, k: nat)
    requires k <= |w|
    ensures Unsigned(w) == Unsigned(w[..k]) + Pow2(k) * Unsigned(w[k..])
  {
    hide Unsigned;
    UnsignedConcat(w[..k], w[k..]);
    assert w[..k] + w[k..] == w;
  }

  /** A row of compressors turns four words and a carry into two words and a carry of the same value. */
  lemma {:induction false} ChainConserves(blocks: seq<Block>, i0: Bits, i1: Bits, i2: Bits, i3: Bits, carry: bool)
    requires ChainStable(blocks, i0, i1, i2, i3, carry)
    ensures |SumWord(blocks)| == |CarryWord(blocks)| == |i0|
    ensures Unsigned(SumWord(blocks)) + 2 * Unsigned(CarryWord(blocks)) + Pow2(|i0|) * Bit(CarryOut(blocks, carry))
         == Unsigned(i0) + Unsigned(i1) + Unsigned(i2) + Unsigned(i3) + Bit(carry)
  {
    hide Pow2, Unsigned, Outputs, CompStable, Fed, SumBits, CarryBits, InputWord;
    if blocks == [] {
      NoBits();
      PowZero();
    } else {
      var v, r := blocks[0].v, blocks[0].rows;
      ChainConserves(blocks[1..], i0[r..], i1[r..], i2[r..], i3[r..], v(ClO));
      CompBlockConserves(v, r, blocks[0].hard);
      BlockInputs(v, r, i0, i1, i2, i3);
      BlockBits(v, r);
      UnsignedConcat(SumBits(v, r), SumWord(blocks[1..]));
      UnsignedConcat(CarryBits(v, r), CarryWord(blocks[1..]));
      Cut(i0, r);
      Cut(i1, r);
      Cut(i2, r);
      Cut(i3, r);
      Pow2Add(r, |i0| - r);
      ChainStep(Pow2(r), Pow2(|i0| - r), Bit(CarryOut(blocks, carry)), Bit(v(ClO)),
                Unsigned(SumWord(blocks[1..])), Unsigned(CarryWord(blocks[1..])),
                Unsigned(i0[r..]), Unsigned(i1[r..]), Unsigned(i2[r..]), Unsigned(i3[r..]));
    }
  }

  lemma PowZero()
    ensures Pow2(0) == 1
  {
  }

  lemma ChainStep(p: int, q: int, out: int, carry: int, s: int, c: int, a0: int, a1: int, a2: int, a3: int)
    requires s + 2 * c + q * out == a0 + a1 + a2 + a3 + carry
    ensures p * s + 2 * (p * c) + p * q * out == p * a0 + p * a1 + p * a2 + p * a3 + p * carry
  {
    Associate(p, q, out);
    assert p * (s + 2 * c + q * out) == p * s + 2 * (p * c) + p * (q * out);
    assert p * (a0 + a1 + a2 + a3 + carry) == p * a0 + p * a1 + p * a2 + p * a3 + p * carry;
  }

  // ----- a row of full adders ----------------------------------------------

  /** bsg_mul_csa_rep: sum and carry words of three words. */
  function CsaSum(a: Bits, b: Bits, c: Bits): (w: Bits)
    requires |a| == |b| == |c|
    ensures |w| == |a|
  {
    seq(|a|, i requires 0 <= i < |a| => Sum3(a[i], b[i], c[i]))
  }

  function CsaCarry(a: Bits, b: Bits, c: Bits): (w: Bits)
    requires |a| == |b| == |c|
    ensures |w| == |a|
  {
    seq(|a|, i requires 0 <= i < |a| => Carry3(a[i], b[i], c[i]))
  }

  lemma CsaMore(a: Bits, b: Bits, c: Bits, x: bool, y: bool, z: bool)
    requires |a| == |b| == |c|
    ensures CsaSum(a + [x], b + [y], c + [z]) == CsaSum(a, b, c) + [Sum3(x, y, z)]
    ensures CsaCarry(a + [x], b + [y], c + [z]) == CsaCarry(a, b, c) + [Carry3(x, y, z)]
  {
    hide Sum3, Carry3;
  }

  lemma {:induction false} CsaConserves(a: Bits, b: Bits, c: Bits)
    requires |a| == |b| == |c|
    ensures Unsigned(CsaSum(a, b, c)) + 2 * Unsigned(CsaCarry(a, b, c)) == Unsigned(a) + Unsigned(b) + Unsigned(c)
  {
    hide Unsigned, Pow2, Sum3, Carry3;
    if a == [] {
      NoBits();
    } else {
      var k := |a| - 1;
      assert a == a[..k] + [a[k]] && b == b[..k] + [b[k]] && c == c[..k] + [c[k]];
      CsaConserves(a[..k], b[..k], c[..k]);
      CsaAppend(a[..k], b[..k], c[..k], a[k], b[k], c[k]);
    }
  }

  lemma CsaAppend(a: Bits, b: Bits, c: Bits, x: bool, y: bool, z: bool)
    requires |a| == |b| == |c|
    requires Unsigned(CsaSum(a, b, c)) + 2 * Unsigned(CsaCarry(a, b, c)) == Unsigned(a) + Unsigned(b) + Unsigned(c)
    ensures var a', b', c' := a + [x], b + [y], c + [z];
            Unsigned(CsaSum(a', b', c')) + 2 * Unsigned(CsaCarry(a', b', c')) == Unsigned(a') + Unsigned(b') + Unsigned(c')
  {
    hide Unsigned, Pow2, Sum3, Carry3, CsaSum, CsaCarry;
    CsaMore(a, b, c, x, y, z);
    Append(CsaSum(a, b, c), Sum3(x, y, z));
    Append(CsaCarry(a, b, c), Carry3(x, y, z));
    Append(a, x);
    Append(b, y);
    Append(c, z);
    CsaStep(Pow2(|a|), x, y, z);
  }

  lemma CsaStep(p: int, a: bool, b: bool, c: bool)
    ensures p * Bit(Sum3(a, b, c)) + 2 * (p * Bit(Carry3(a, b, c))) == p * Bit(a) + p * Bit(b) + p * Bit(c)
  {
  }

  // ----- the whole multiplier ----------------------------------------------

  function Zeros(n: nat): Bits {
    seq(n, _ => false)
  }

  /** The instances brr0 to brr3, crr01, crr23 and crr03. */
  datatype Multiplier = Multiplier(brr: seq<seq<Block>>, crr01: seq<Block>, crr23: seq<Block>, crr03: seq<Block>) {
    function S(k: nat): Bits
      requires k < |brr|
    {
      SumWord(brr[k])
    }

    function C(k: nat): Bits
      requires k < |brr|
    {
      CarryWord(brr[k])
    }
  }

  predicate Widths(m: Multiplier) {
    && |m.brr| == 4 && |m.S(0)| == |m.C(0)| == 41 && |m.S(1)| == |m.C(1)| == 43
    && |m.S(2)| == |m.C(2)| == 43 && |m.S(3)| == |m.C(3)| == 42
  }

  /** Input words of the three rows of compressors, lowest bit first. */
  function In01(m: Multiplier, green: Bits): (w: seq<Bits>)
    requires Widths(m) && |green| == 34
    ensures |w| == 4
  {
    [m.S(0)[6..] + green[11..19], m.C(0)[5..] + Zeros(7), m.S(1), [false] + m.C(1)[..42]]
  }

  function In23(m: Multiplier): (w: seq<Bits>)
    requires Widths(m)
    ensures |w| == 4
  {
    [m.S(2)[8..] + Zeros(7), m.C(2)[7..] + Zeros(6), m.S(3), [false] + m.C(3)[..41]]
  }

  /** c42_01s and c42_01c, with the half adder that merges one green dot and the carry out of crr01. */
  function S01(m: Multiplier, green: Bits): Bits
    requires |green| == 34
  {
    SumWord(m.crr01) + [green[19] != CarryOut(m.crr01, false)]
  }

  function C01(m: Multiplier, green: Bits): Bits
    requires |green| == 34
  {
    CarryWord(m.crr01) + [green[19] && CarryOut(m.crr01, false)]
  }

  predicate UpperWidths(m: Multiplier) {
    |SumWord(m.crr01)| == |CarryWord(m.crr01)| == 43 && |SumWord(m.crr23)| == |CarryWord(m.crr23)| == 42
  }

  predicate TreeWidths(m: Multiplier) {
    UpperWidths(m) && |SumWord(m.crr03)| == |CarryWord(m.crr03)| == 50
  }

  function In03(m: Multiplier, green: Bits): (w: seq<Bits>)
    requires Widths(m) && UpperWidths(m) && |green| == 34
    ensures |w| == 4
  {
    [S01(m, green)[8..] + green[20..], C01(m, green)[7..] + Zeros(13),
     m.S(2)[..8] + SumWord(m.crr23), [false] + m.C(2)[..7] + [false] + CarryWord(m.crr23)[..41]]
  }

  predicate Chain(blocks: seq<Block>, w: seq<Bits>) {
    |w| == 4 && ChainStable(blocks, w[0], w[1], w[2], w[3], false)
  }

  function DigitsOf(x: Bits, signed: bool): nat -> Digit {
    (i: nat) => Recode(x, signed, i)
  }

  function Green(x: Bits, y: Bits, signed: bool): (g: Bits)
    ensures |g| == |y| + 2
  {
    GreenDots(DigitsOf(x, signed)(15).n, DigitsOf(x, signed)(16).s, y)
  }

  /** A stable state of the multiplier with operands x and y. */
  predicate MulStable(m: Multiplier, x: Bits, y: Bits, signed: bool) {
    && |x| == |y| == 32
    && ArrayStable(m.brr, Multiplicand(y, signed), DigitsOf(x, signed))
    && Widths(m) && TreeWidths(m)
    && Chain(m.crr01, In01(m, Green(x, y, signed)))
    && Chain(m.crr23, In23(m))
    && Chain(m.crr03, In03(m, Green(x, y, signed)))
  }

  /** What crosses the pipeline stage; without one, plain wires. */
  datatype Stage = Stage(gb: Bits, s01: Bits, c01: Bits, s30: Bits, c30: Bits, s03: Bits, c03: Bits)

  function Captured(m: Multiplier, green: Bits): (r: Stage)
    requires Widths(m) && TreeWidths(m) && |green| == 34
    ensures StageWidths(r)
  {
    Stage(green[..11], S01(m, green)[..8], C01(m, green)[..7], m.S(0)[..6], m.C(0)[..5],
          SumWord(m.crr03), CarryWord(m.crr03))
  }

  predicate StageWidths(r: Stage) {
    |r.gb| == 11 && |r.s01| == 8 && |r.c01| == 7 && |r.s30| == 6 && |r.c30| == 5 && |r.s03| == |r.c03| == 50
  }

  /** The row of full adders that takes in the lowest green dots. */
  function GbSum(r: Stage): (w: Bits)
    requires StageWidths(r)
    ensures |w| == 34
  {
    CsaSum(r.gb + Zeros(23), r.s03[16..], r.c03[15..49])
  }

  function GbCarry(r: Stage): (w: Bits)
    requires StageWidths(r)
    ensures |w| == 34
  {
    CsaCarry(r.gb + Zeros(23), r.s03[16..], r.c03[15..49])
  }

  /** The two words the final adder adds. */
  function SumA(r: Stage): Bits
    requires StageWidths(r)
  {
    r.s30 + r.s01 + r.s03[..16] + GbSum(r)
  }

  function SumB(r: Stage): Bits
    requires StageWidths(r)
  {
    [false] + r.c30 + [false] + r.c01 + [false] + r.c03[..15] + [false] + GbCarry(r)[..33]
  }

  /** z_o, 64 bits wide. */
  function Z(r: Stage): nat
    requires StageWidths(r)
  {
    (Unsigned(SumA(r)) + Unsigned(SumB(r))) % Pow2(64)
  }

  // ----- what the tree adds up ---------------------------------------------

  lemma {:induction false} ZerosValue(n: nat)
    ensures Unsigned(Zeros(n)) == 0
  {
    if n > 0 {
      ZerosValue(n - 1);
      assert Zeros(n)[..n - 1] == Zeros(n - 1);
    }
  }

  lemma Padded(w: Bits, n: nat)
    ensures Unsigned(w + Zeros(n)) == Unsigned(w)
  {
    hide Unsigned;
    UnsignedConcat(w, Zeros(n));
    ZerosValue(n);
  }

  lemma Doubled(w: Bits)
    ensures Unsigned([false] + w) == 2 * Unsigned(w)
  {
    hide Unsigned;
    UnsignedConcat([false], w);
    OneBit(false);
    SmallPowers();
  }

  lemma Powers64()
    ensures Pow2(11) == 0x800 && Pow2(14) == 0x4000 && Pow2(15) == 0x8000 && Pow2(16) == 0x1_0000 && Pow2(19) == 0x8_0000
    ensures Pow2(20) == 0x10_0000 && Pow2(24) == 0x100_0000 && Pow2(30) == 0x4000_0000 && Pow2(32) == 0x1_0000_0000
    ensures Pow2(33) == 0x2_0000_0000 && Pow2(34) == 0x4_0000_0000 && Pow2(35) == 0x8_0000_0000 && Pow2(36) == 0x10_0000_0000
    ensures Pow2(41) == 0x200_0000_0000 && Pow2(42) == 0x400_0000_0000 && Pow2(43) == 0x800_0000_0000
    ensures Pow2(49) == 0x2_0000_0000_0000 && Pow2(50) == 0x4_0000_0000_0000
    ensures Pow2(64) == 0x1_0000_0000_0000_0000 && Pow2(66) == 0x4_0000_0000_0000_0000
  {
    hide Pow2;
    SmallPowers();
    Pow2Add(8, 3);
    Pow2Add(8, 6);
    Pow2Add(8, 7);
    Pow2Add(8, 8);
    Pow2Add(16, 3);
    Pow2Add(16, 4);
    Pow2Add(16, 8);
    Pow2Add(24, 6);
    Pow2Add(24, 8);
    Pow2Add(32, 1);
    Pow2Add(32, 2);
    Pow2Add(32, 3);
    Pow2Add(32, 4);
    Pow2Add(36, 5);
    Pow2Add(36, 6);
    Pow2Add(36, 7);
    Pow2Add(43, 6);
    Pow2Add(43, 7);
    Pow2Add(32, 32);
    Pow2Add(64, 2);
  }

  /** crr01 and its half adder. */
  lemma Row01(m: Multiplier, green: Bits)
    requires Widths(m) && TreeWidths(m) && |green| == 34 && Chain(m.crr01, In01(m, green))
    ensures Unsigned(S01(m, green)) + 2 * Unsigned(C01(m, green))
         == Unsigned(m.S(0)[6..]) + 0x8_0000_0000 * Unsigned(green[11..19]) + Unsigned(m.C(0)[5..]) + Unsigned(m.S(1))
            + 2 * Unsigned(m.C(1)[..42]) + 0x800_0000_0000 * Bit(green[19])
  {
    hide Unsigned, Pow2, ChainStable, SumWord, CarryWord, CarryOut;
    var w := In01(m, green);
    ChainConserves(m.crr01, w[0], w[1], w[2], w[3], false);
    UnsignedConcat(m.S(0)[6..], green[11..19]);
    Padded(m.C(0)[5..], 7);
    Doubled(m.C(1)[..42]);
    Append(SumWord(m.crr01), green[19] != CarryOut(m.crr01, false));
    Append(CarryWord(m.crr01), green[19] && CarryOut(m.crr01, false));
    Powers64();
    HalfAdder(green[19], CarryOut(m.crr01, false));
  }

  lemma HalfAdder(a: bool, b: bool)
    ensures Bit(a != b) + 2 * Bit(a && b) == Bit(a) + Bit(b)
  {
  }

  lemma Row23(m: Multiplier)
    requires Widths(m) && TreeWidths(m) && Chain(m.crr23, In23(m))
    ensures Unsigned(SumWord(m.crr23)) + 2 * Unsigned(CarryWord(m.crr23)) + 0x400_0000_0000 * Bit(CarryOut(m.crr23, false))
         == Unsigned(m.S(2)[8..]) + Unsigned(m.C(2)[7..]) + Unsigned(m.S(3)) + 2 * Unsigned(m.C(3)[..41])
  {
    hide Unsigned, Pow2, ChainStable, SumWord, CarryWord, CarryOut;
    var w := In23(m);
    ChainConserves(m.crr23, w[0], w[1], w[2], w[3], false);
    Padded(m.S(2)[8..], 7);
    Padded(m.C(2)[7..], 6);
    Doubled(m.C(3)[..41]);
    Powers64();
  }

  lemma Row03(m: Multiplier, green: Bits)
    requires Widths(m) && TreeWidths(m) && |green| == 34 && Chain(m.crr03, In03(m, green))
    ensures Unsigned(SumWord(m.crr03)) + 2 * Unsigned(CarryWord(m.crr03))
            + 0x4_0000_0000_0000 * Bit(CarryOut(m.crr03, false))
         == Unsigned(S01(m, green)[8..]) + 0x10_0000_0000 * Unsigned(green[20..]) + Unsigned(C01(m, green)[7..])
            + Unsigned(m.S(2)[..8]) + 0x100 * Unsigned(SumWord(m.crr23))
            + 2 * Unsigned(m.C(2)[..7]) + 0x200 * Unsigned(CarryWord(m.crr23)[..41])
  {
    hide Unsigned, Pow2, ChainStable, SumWord, CarryWord, CarryOut;
    var w, c2, c23 := In03(m, green), m.C(2)[..7], CarryWord(m.crr23)[..41];
    ChainConserves(m.crr03, w[0], w[1], w[2], w[3], false);
    UnsignedConcat(S01(m, green)[8..], green[20..]);
    Padded(C01(m, green)[7..], 13);
    UnsignedConcat(m.S(2)[..8], SumWord(m.crr23));
    assert [false] + c2 + [false] + c23 == [false] + (c2 + ([false] + c23));
    Doubled(c2 + ([false] + c23));
    UnsignedConcat(c2, [false] + c23);
    Doubled(c23);
    SmallPowers();
    Powers64();
  }

  lemma RowGb(r: Stage)
    requires StageWidths(r)
    ensures Unsigned(GbSum(r)) + 2 * Unsigned(GbCarry(r))
         == Unsigned(r.gb) + Unsigned(r.s03[16..]) + Unsigned(r.c03[15..49])
  {
    hide Unsigned;
    CsaConserves(r.gb + Zeros(23), r.s03[16..], r.c03[15..49]);
    Padded(r.gb, 23);
  }

  lemma SumAValue(r: Stage)
    requires StageWidths(r)
    ensures Unsigned(SumA(r))
         == Unsigned(r.s30) + 0x40 * Unsigned(r.s01) + 0x4000 * Unsigned(r.s03[..16]) + 0x4000_0000 * Unsigned(GbSum(r))
  {
    hide Unsigned, Pow2, GbSum;
    UnsignedConcat(r.s30 + r.s01 + r.s03[..16], GbSum(r));
    UnsignedConcat(r.s30 + r.s01, r.s03[..16]);
    UnsignedConcat(r.s30, r.s01);
    SmallPowers();
    Powers64();
  }

  lemma SumBValue(r: Stage)
    requires StageWidths(r)
    ensures Unsigned(SumB(r))
         == 2 * Unsigned(r.c30) + 0x80 * Unsigned(r.c01) + 0x8000 * Unsigned(r.c03[..15])
            + 0x8000_0000 * Unsigned(GbCarry(r)[..33])
  {
    hide Unsigned, Pow2, GbCarry;
    var a, b, c, d := r.c30, r.c01, r.c03[..15], GbCarry(r)[..33];
    assert SumB(r) == [false] + (a + ([false] + (b + ([false] + (c + ([false] + d))))));
    Doubled(a + ([false] + (b + ([false] + (c + ([false] + d))))));
    UnsignedConcat(a, [false] + (b + ([false] + (c + ([false] + d)))));
    Doubled(b + ([false] + (c + ([false] + d))));
    UnsignedConcat(b, [false] + (c + ([false] + d)));
    Doubled(c + ([false] + d));
    UnsignedConcat(c, [false] + d);
    Doubled(d);
    SmallPowers();
    Powers64();
  }

  /** All of it together, in numbers; the overflow is what falls off the top. */
  lemma TreeArithmetic(
      s0l: int, s0h: int, c0l: int, c0h: int, s1: int, c1: int, s2l: int, s2h: int, c2l: int, c2h: int,
      s3: int, c3l: int, c3t: int, g0: int, g1: int, g19: int, g2: int,
      a: int, al: int, ah: int, b: int, bl: int, bh: int, s23: int, c23: int, dl: int, dt: int, k2: int,
      e: int, el: int, eh: int, f: int, fl: int, fm: int, ft: int, k3: int, gs: int, gc: int, hl: int, ht: int)
    returns (overflow: int)
    requires a + 2 * b == s0h + 0x8_0000_0000 * g1 + c0h + s1 + 2 * c1 + 0x800_0000_0000 * g19
    requires a == al + 0x100 * ah && b == bl + 0x80 * bh
    requires s23 + 2 * c23 + 0x400_0000_0000 * k2 == s2h + c2h + s3 + 2 * c3l
    requires c23 == dl + 0x200_0000_0000 * dt
    requires e + 2 * f + 0x4_0000_0000_0000 * k3 == ah + 0x10_0000_0000 * g2 + bh + s2l + 0x100 * s23 + 2 * c2l + 0x200 * dl
    requires e == el + 0x1_0000 * eh && f == fl + 0x8000 * fm + 0x2_0000_0000_0000 * ft
    requires gs + 2 * gc == g0 + eh + fm && gc == hl + 0x2_0000_0000 * ht
    ensures s0l + 0x40 * al + 0x4000 * el + 0x4000_0000 * gs + 2 * c0l + 0x80 * bl + 0x8000 * fl + 0x8000_0000 * hl
            + 0x1_0000_0000_0000_0000 * overflow
         == s0l + 0x40 * s0h + 2 * (c0l + 0x20 * c0h) + 0x40 * (s1 + 2 * c1)
            + 0x4000 * (s2l + 0x100 * s2h + 2 * (c2l + 0x80 * c2h))
            + 0x40_0000 * (s3 + 2 * (c3l + 0x200_0000_0000 * c3t))
            + 0x4000_0000 * (g0 + 0x800 * g1 + 0x8_0000 * g19 + 0x10_0000 * g2)
  {
    overflow := c3t + k2 + k3 + ht + ft + dt;
  }

  lemma {:induction false} StripWidths(m: Multiplier, x: Bits, y: Bits, signed: bool, k: nat)
    requires |m.brr| == 4 && ArrayStable(m.brr, Multiplicand(y, signed), DigitsOf(x, signed)) && k < 4
    ensures |m.S(k)| == |m.C(k)| == if k == 0 then 41 else if k == 3 then 42 else 43
  {
    hide Stable, StripWired, Layout, SumWord, CarryWord;
    assert StripReady(m.brr[k], 4, k, Multiplicand(y, signed), DigitsOf(x, signed));
    StripHeight(m.brr[k], Vectors(4, k), false);
    WordsValue(m.brr[k], 0);
    LayoutParts(StartOf(k), PlainOf(4, k), EndingOf(4, k), 0);
  }

  /** The strips' outputs in terms of their words, at the weights of the product. */
  lemma ArrayWords(m: Multiplier)
    requires |m.brr| == 4
    ensures ArrayOutputs(m.brr, 4)
         == 4 * (Unsigned(m.S(0)) + 2 * Unsigned(m.C(0))) + 0x100 * (Unsigned(m.S(1)) + 2 * Unsigned(m.C(1)))
            + 0x1_0000 * (Unsigned(m.S(2)) + 2 * Unsigned(m.C(2))) + 0x100_0000 * (Unsigned(m.S(3)) + 2 * Unsigned(m.C(3)))
  {
    hide Unsigned, Pow2, StripOutputs, SumWord, CarryWord;
    WordsValue(m.brr[0], 2);
    WordsValue(m.brr[1], 0);
    WordsValue(m.brr[2], 0);
    WordsValue(m.brr[3], 0);
    SmallPowers();
    Powers64();
    assert ArrayOutputs(m.brr, 0) == 0;
    assert ArrayOutputs(m.brr, 1) == Pow2(0) * StripOutputs(m.brr[0], 2);
    assert ArrayOutputs(m.brr, 2) == ArrayOutputs(m.brr, 1) + Pow2(8) * StripOutputs(m.brr[1], 0);
    assert ArrayOutputs(m.brr, 3) == ArrayOutputs(m.brr, 2) + Pow2(16) * StripOutputs(m.brr[2], 0);
    assert ArrayOutputs(m.brr, 4) == ArrayOutputs(m.brr, 3) + Pow2(24) * StripOutputs(m.brr[3], 0);
  }

  /** The one carry output of the second strip that the tree leaves out is low. */
  lemma {:induction false} DroppedCarry(m: Multiplier, y: Multiplicand, digits: nat -> Digit)
    requires |m.brr| == 4 && ArrayStable(m.brr, y, digits)
    ensures |m.C(1)| == 43 ==> Unsigned(m.C(1)) == Unsigned(m.C(1)[..42])
  {
    hide Stable, StripWired, Layout, CarryWord, Unsigned, TopCarry;
    assert StripReady(m.brr[1], 4, 1, y, digits);
    LayoutTop(0, PlainOf(4, 1), Eight);
    TopCarryLow(m.brr[1], Vectors(4, 1), false);
    if |m.C(1)| == 43 {
      TopBit(m.brr[1], Vectors(4, 1), false);
      var c := m.C(1);
      assert c == c[..42] + [c[42]];
      Append(c[..42], c[42]);
      LowBit(c[42], Pow2(42));
    }
  }

  lemma {:induction false} TopBit(blocks: seq<Block>, params: seq<Nibbles>, carry: bool)
    requires Stable(blocks, params, carry) && params != []
    ensures |CarryWord(blocks)| == |params| && CarryWord(blocks)[|params| - 1] == TopCarry(blocks)
  {
    hide RepStable;
    var r := blocks[0].rows;
    BlockBits(blocks[0].v, r);
    if blocks[1..] == [] {
      assert CarryWord(blocks) == CarryBits(blocks[0].v, r) + [];
    } else {
      assert 0 < blocks[1..][0].rows <= |params[r..]|;
      TopBit(blocks[1..], params[r..], blocks[0].v(ClO));
    }
  }

  lemma GreenCuts(g: Bits)
    requires |g| == 34
    ensures Unsigned(g) == Unsigned(g[..11]) + 0x800 * Unsigned(g[11..19]) + 0x8_0000 * Bit(g[19]) + 0x10_0000 * Unsigned(g[20..])
  {
    hide Unsigned, Pow2;
    Cut(g, 20);
    assert g[..20] == g[..19] + [g[19]];
    Append(g[..19], g[19]);
    Cut(g[..19], 11);
    assert g[..19][..11] == g[..11] && g[..19][11..] == g[11..19];
    Powers64();
  }

  lemma TopCuts(c: Bits)
    requires |c| == 50
    ensures Unsigned(c) == Unsigned(c[..15]) + 0x8000 * Unsigned(c[15..49]) + 0x2_0000_0000_0000 * Bit(c[49])
  {
    hide Unsigned, Pow2;
    assert c == c[..49] + [c[49]];
    Append(c[..49], c[49]);
    Cut(c[..49], 15);
    assert c[..49][..15] == c[..15] && c[..49][15..] == c[15..49];
    Powers64();
  }

  /** The sum of the final adder's words is the value of the strips and the green dots, less what
      lies above 64 bits. */
  lemma TreeValue(m: Multiplier, g: Bits, y: Multiplicand, digits: nat -> Digit) returns (overflow: int)
    requires Widths(m) && TreeWidths(m) && |g| == 34 && ArrayStable(m.brr, y, digits)
    requires Chain(m.crr01, In01(m, g)) && Chain(m.crr23, In23(m)) && Chain(m.crr03, In03(m, g))
    ensures 4 * (Unsigned(SumA(Captured(m, g))) + Unsigned(SumB(Captured(m, g))) + 0x1_0000_0000_0000_0000 * overflow)
         == ArrayOutputs(m.brr, 4) + 0x1_0000_0000 * Unsigned(g)
  {
    hide Unsigned, Pow2, ArrayStable, Chain, SumWord, CarryWord, S01, C01, SumA, SumB, GbSum, GbCarry, ArrayOutputs, Bit,
      CarryOut;
    WordWidths(m, g);
    var r := Captured(m, g);
    var a, b, c23, c03, gc := S01(m, g), C01(m, g), CarryWord(m.crr23), CarryWord(m.crr03), GbCarry(r);
    Row01(m, g);
    Row23(m);
    Row03(m, g);
    RowGb(r);
    SumAValue(r);
    SumBValue(r);
    ArrayWords(m);
    DroppedCarry(m, y, digits);
    Cut(m.S(0), 6);
    Cut(m.C(0), 5);
    Cut(m.S(2), 8);
    Cut(m.C(2), 7);
    Cut(m.C(3), 41);
    Cut(a, 8);
    Cut(b, 7);
    Cut(c23, 41);
    Cut(SumWord(m.crr03), 16);
    Cut(gc, 33);
    TopCuts(c03);
    GreenCuts(g);
    SmallPowers();
    Powers64();
    overflow := TreeArithmetic(
      Unsigned(m.S(0)[..6]), Unsigned(m.S(0)[6..]), Unsigned(m.C(0)[..5]), Unsigned(m.C(0)[5..]),
      Unsigned(m.S(1)), Unsigned(m.C(1)), Unsigned(m.S(2)[..8]), Unsigned(m.S(2)[8..]),
      Unsigned(m.C(2)[..7]), Unsigned(m.C(2)[7..]), Unsigned(m.S(3)), Unsigned(m.C(3)[..41]), Unsigned(m.C(3)[41..]),
      Unsigned(g[..11]), Unsigned(g[11..19]), Bit(g[19]), Unsigned(g[20..]),
      Unsigned(a), Unsigned(a[..8]), Unsigned(a[8..]), Unsigned(b), Unsigned(b[..7]), Unsigned(b[7..]),
      Unsigned(SumWord(m.crr23)), Unsigned(c23), Unsigned(c23[..41]), Unsigned(c23[41..]), Bit(CarryOut(m.crr23, false)),
      Unsigned(SumWord(m.crr03)), Unsigned(SumWord(m.crr03)[..16]), Unsigned(SumWord(m.crr03)[16..]),
      Unsigned(c03), Unsigned(c03[..15]), Unsigned(c03[15..49]), Bit(c03[49]), Bit(CarryOut(m.crr03, false)),
      Unsigned(GbSum(r)), Unsigned(gc), Unsigned(gc[..33]), Unsigned(gc[33..]));
  }

  lemma WordWidths(m: Multiplier, g: Bits)
    requires UpperWidths(m) && |g| == 34
    ensures |S01(m, g)| == |C01(m, g)| == 44
  {
  }

  /** The number z_o should be. */
  function Expected(x: Bits, y: Bits, signed: bool): nat {
    (MultiplicandValue(Multiplicand(x, signed)) * MultiplicandValue(Multiplicand(y, signed))) % Pow2(64)
  }

  /** The multiplier multiplies: in every stable state, for every pair of 32-bit operands, signed or
      unsigned, z_o is the product modulo 2^64, and no strip carries out of its top. */
  lemma {:induction false} Product(m: Multiplier, x: Bits, y: Bits, signed: bool)
    requires MulStable(m, x, y, signed)
    ensures Z(Captured(m, Green(x, y, signed))) == Expected(x, y, signed)
    ensures forall k :: 0 <= k < 4 ==> !CarryOut(m.brr[k], false)
  {
    hide Unsigned, Pow2, ArrayStable, Chain, SumWord, CarryWord, Green, SumA, SumB, ArrayOutputs, GreenDots, MultiplicandValue,
      Recode, CarryOut, Captured;
    var g, p := Green(x, y, signed),
                MultiplicandValue(Multiplicand(x, signed)) * MultiplicandValue(Multiplicand(y, signed));
    var r := Captured(m, g);
    GreenIs(x, y, signed);
    var overflow := TreeValue(m, g, Multiplicand(y, signed), DigitsOf(x, signed));
    ArrayProduct(m.brr, x, y, signed, DigitsOf(x, signed));
    Powers64();
    assert Unsigned(SumA(r)) + Unsigned(SumB(r)) == p + (1 - overflow) * Pow2(64);
    ModShift(p, 1 - overflow, Pow2(64));
    forall k | 0 <= k < 4 ensures !CarryOut(m.brr[k], false) {
      forall i ensures !(DigitsOf(x, signed)(i).s && DigitsOf(x, signed)(i).d) {
        RecodeValue(x, signed, i);
      }
      ArrayStep(m.brr, Multiplicand(y, signed), DigitsOf(x, signed), k);
    }
  }

  lemma GreenIs(x: Bits, y: Bits, signed: bool)
    requires |x| == |y| == 32
    ensures Green(x, y, signed) == GreenDots(DigitsOf(x, signed)(|x| / 2 - 1).n, DigitsOf(x, signed)(|x| / 2).s, y)
  {
  }

  // ----- with the pipeline stage -------------------------------------------

  /** One cycle: the inputs, and the state the logic in front of the registers settles in. */
  datatype Cycle = Cycle(en: bool, x: Bits, y: Bits, signed: bool, m: Multiplier)

  predicate CycleSettled(c: Cycle) {
    MulStable(c.m, c.x, c.y, c.signed)
  }

  function NextStage(r: Stage, c: Cycle): Stage
    requires CycleSettled(c)
  {
    if c.en then Captured(c.m, Green(c.x, c.y, c.signed)) else r
  }

  predicate RunSettled(run: seq<Cycle>) {
    run == [] || (RunSettled(run[..|run| - 1]) && CycleSettled(run[|run| - 1]))
  }

  function StageAfter(r: Stage, run: seq<Cycle>): Stage
    requires RunSettled(run)
  {
    if run == [] then r else NextStage(StageAfter(r, run[..|run| - 1]), run[|run| - 1])
  }

  /** After any run z_o is the product of the operands of the last enabled cycle. */
  lemma {:induction false} PipelinedProduct(r: Stage, run: seq<Cycle>, last: nat)
    requires RunSettled(run)
    requires last < |run| && run[last].en && forall i :: last < i < |run| ==> !run[i].en
    ensures StageWidths(StageAfter(r, run))
    ensures Z(StageAfter(r, run)) == Expected(run[last].x, run[last].y, run[last].signed)
  {
    hide CycleSettled, Captured, Z, Expected;
    var c := run[|run| - 1];
    if last == |run| - 1 {
      CapturedProduct(c);
    } else {
      PipelinedProduct(r, run[..|run| - 1], last);
    }
  }

  lemma {:induction false} CapturedProduct(c: Cycle)
    requires CycleSettled(c)
    ensures Z(Captured(c.m, Green(c.x, c.y, c.signed))) == Expected(c.x, c.y, c.signed)
  {
    hide ArrayStable, Chain, Captured, Z, Expected;
    Product(c.m, c.x, c.y, c.signed);
  }

  /** bsg_mul_32_32 with pipeline_p set. */
  class PipelinedMul {
    var stage: Stage

    constructor (r: Stage)
      ensures stage == r
    {
      stage := r;
    }

    /** A clock edge: en_i loads the registers of the stage, each with its share. */
    method Clock(c: Cycle)
      requires CycleSettled(c)
      modifies this
      ensures stage == NextStage(old(stage), c)
    {
      if c.en {
        var g := Green(c.x, c.y, c.signed);
        var s01, c01 := S01(c.m, g), C01(c.m, g);
        stage := stage.(gb := g[..11], s01 := s01[..8], c01 := c01[..7]);
        stage := stage.(s30 := c.m.S(0)[..6], c30 := c.m.C(0)[..5]);
        stage := stage.(s03 := SumWord(c.m.crr03), c03 := CarryWord(c.m.crr03));
      }
    }
  }

  // ----- the multiplier settles --------------------------------------------

  /** Block heights, from the group_vec_p parameters. */
  const BrrHeights: seq<seq<nat>> := [[6, 8, 8, 8, 5, 6], [8, 8, 8, 5, 6, 8], [8, 8, 5, 6, 8, 8], [8, 5, 6, 8, 8, 7]]
  const Crr01Heights: seq<nat> := [8, 8, 8, 5, 6, 8]
  const Crr23Heights: seq<nat> := [8, 5, 6, 8, 8, 7]
  const Crr03Heights: seq<nat> := [8, 8, 5, 6, 8, 8, 7]

  /** The ports of a compressor block fed with the low bits of four words. */
  function WordPorts(rows: nat, w: seq<Bits>, carry: bool): Valuation
    requires rows > 0 && |w| == 4 && forall i :: 0 <= i < 4 ==> |w[i]| >= rows
  {
    (wire: Wire) => match wire
      case CrI => carry
      case In(i) => i / rows < 4 && w[i / rows][i % rows]
      case _ => false
  }

  lemma WordPortsFed(v: Valuation, rows: nat, w: seq<Bits>, carry: bool)
    requires rows > 0 && |w| == 4 && forall i :: 0 <= i < 4 ==> |w[i]| >= rows
    requires forall i: nat :: v(In(i)) == WordPorts(rows, w, carry)(In(i))
    ensures Fed(v, rows, w[0], w[1], w[2], w[3])
  {
    forall i, pos | 0 <= i < 4 && 0 <= pos < rows ensures v(InBit(i, pos, rows)) == w[i][pos] {
      DivModUnique(i * rows + pos, rows, i, pos);
      assert v(In(i * rows + pos)) == WordPorts(rows, w, carry)(In(i * rows + pos));
    }
  }

  /** For any words and any division into blocks, hardened or not, a stable row of compressors exists. */
  lemma {:induction false} ChainSettles(heights: seq<nat>, hard: bool, i0: Bits, i1: Bits, i2: Bits, i3: Bits, carry: bool)
    returns (blocks: seq<Block>)
    requires |i0| == |i1| == |i2| == |i3| == Sum(heights) && forall i :: 0 <= i < |heights| ==> heights[i] > 0
    ensures ChainStable(blocks, i0, i1, i2, i3, carry) && Heights(blocks, heights, hard)
  {
    hide CompStable, Fed, WordPorts;
    if heights == [] {
      blocks := [];
    } else {
      var r := heights[0];
      var w := [i0, i1, i2, i3];
      var v := CompBlockSettles(WordPorts(r, w, carry), r, hard);
      WordPortsFed(v, r, w, carry);
      PortCarry(r, w, carry);
      var rest := ChainSettles(heights[1..], hard, i0[r..], i1[r..], i2[r..], i3[r..], v(ClO));
      blocks := [Block(v, r, hard)] + rest;
      assert blocks[1..] == rest;
    }
  }

  lemma PortCarry(rows: nat, w: seq<Bits>, carry: bool)
    requires rows > 0 && |w| == 4 && forall i :: 0 <= i < 4 ==> |w[i]| >= rows
    ensures WordPorts(rows, w, carry)(CrI) == carry
  {
  }

  lemma BrrDivisions(k: nat)
    requires k < 4
    ensures Division(BrrHeights[k], 4, k)
  {
    hide Sum, Layout;
    LayoutParts(StartOf(k), PlainOf(4, k), EndingOf(4, k), 0);
    HeightSums();
    PositiveHeights(k);
  }

  lemma PositiveHeights(k: nat)
    requires k < 4
    ensures BrrHeights[k] != [] && BrrHeights[k][0] >= 6 && (k > 0 ==> BrrHeights[k][0] >= 8)
    ensures forall i :: 0 <= i < |BrrHeights[k]| ==> BrrHeights[k][i] > 0
  {
  }

  lemma HeightSums()
    ensures Sum(BrrHeights[0]) == 41 && Sum(BrrHeights[1]) == 43 && Sum(BrrHeights[2]) == 43 && Sum(BrrHeights[3]) == 42
    ensures Sum(Crr01Heights) == 43 && Sum(Crr23Heights) == 42 && Sum(Crr03Heights) == 50
  {
    SumSix(6, 8, 8, 8, 5, 6);
    SumSix(8, 8, 8, 5, 6, 8);
    SumSix(8, 8, 5, 6, 8, 8);
    SumSix(8, 5, 6, 8, 8, 7);
    assert [8, 8, 5, 6, 8, 8, 7][1..] == [8, 5, 6, 8, 8, 7];
  }

  lemma SumSix(a: nat, b: nat, c: nat, d: nat, e: nat, f: nat)
    ensures Sum([a, b, c, d, e, f]) == a + b + c + d + e + f
  {
    SumThree(d, e, f);
    assert [a, b, c, d, e, f][1..] == [b, c, d, e, f];
    assert [b, c, d, e, f][1..] == [c, d, e, f];
    assert [c, d, e, f][1..] == [d, e, f];
    assert Sum([c, d, e, f]) == c + d + e + f;
    assert Sum([b, c, d, e, f]) == b + c + d + e + f;
  }

  lemma SumThree(d: nat, e: nat, f: nat)
    ensures Sum([d, e, f]) == d + e + f
  {
    assert [d, e, f][1..] == [e, f] && [e, f][1..] == [f] && [f][1..] == [];
    assert Sum([f]) == f && Sum([e, f]) == e + f;
  }

  lemma RowSettles(heights: seq<nat>, hard: bool, w: seq<Bits>) returns (blocks: seq<Block>)
    requires |w| == 4 && forall i :: 0 <= i < 4 ==> |w[i]| == Sum(heights)
    requires forall i :: 0 <= i < |heights| ==> heights[i] > 0
    ensures Chain(blocks, w) && Heights(blocks, heights, hard)
    ensures |SumWord(blocks)| == |CarryWord(blocks)| == Sum(heights)
  {
    hide Sum, Heights, SumWord, CarryWord, Unsigned, Pow2;
    blocks := ChainSettles(heights, hard, w[0], w[1], w[2], w[3], false);
    ChainConserves(blocks, w[0], w[1], w[2], w[3], false);
  }

  lemma {:induction false} StripsSettle(x: Bits, y: Bits, signed: bool, hard: bool) returns (brr: seq<seq<Block>>)
    requires |x| == |y| == 32
    ensures |brr| == 4 && ArrayStable(brr, Multiplicand(y, signed), DigitsOf(x, signed))
    ensures forall k :: 0 <= k < 4 ==> Heights(brr[k], BrrHeights[k], hard)
    ensures forall r01, r23, r03 :: Widths(Multiplier(brr, r01, r23, r03))
  {
    hide ArrayStable, StripReady, SumWord, CarryWord, Division, Heights, Recode;
    forall k | 0 <= k < 4 ensures Division(BrrHeights[k], 4, k) {
      BrrDivisions(k);
    }
    brr := ArraySettles(4, 4, BrrHeights, hard, Multiplicand(y, signed), DigitsOf(x, signed));
    forall r01, r23, r03 ensures Widths(Multiplier(brr, r01, r23, r03)) {
      var m := Multiplier(brr, r01, r23, r03);
      StripWidths(m, x, y, signed, 0);
      StripWidths(m, x, y, signed, 1);
      StripWidths(m, x, y, signed, 2);
      StripWidths(m, x, y, signed, 3);
    }
  }

  /** For all operands there is a stable state of the multiplier with the source's block heights, with
      and without hardened macros. */
  lemma {:induction false} MulSettles(x: Bits, y: Bits, signed: bool, hard: bool) returns (m: Multiplier)
    requires |x| == |y| == 32
    ensures MulStable(m, x, y, signed)
    ensures forall k :: 0 <= k < 4 ==> Heights(m.brr[k], BrrHeights[k], hard)
    ensures Heights(m.crr01, Crr01Heights, hard) && Heights(m.crr23, Crr23Heights, hard) && Heights(m.crr03, Crr03Heights, hard)
  {
    hide ArrayStable, Chain, SumWord, CarryWord, Green, Heights, Sum;
    var g := Green(x, y, signed);
    HeightSums();
    var brr := StripsSettle(x, y, signed, hard);
    m := Multiplier(brr, [], [], []);
    var crr01 := RowSettles(Crr01Heights, hard, In01(m, g));
    var crr23 := RowSettles(Crr23Heights, hard, In23(m));
    m := Multiplier(brr, crr01, crr23, []);
    WordWidths(m, g);
    var crr03 := RowSettles(Crr03Heights, hard, In03(m, g));
    m := Multiplier(brr, crr01, crr23, crr03);
  }
}
