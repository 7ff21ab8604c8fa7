/** Booth recoding of the multiplier operand, the stack of strips that forms the partial products, and
    the extra row for unsigned operands: together they multiply. */
module BoothArray {
  import opened Powers
  import opened Netlist
  import opened BoothRep
  import opened BoothStrip

  /** temp_x: the operand with a zero below it and zeros above it. */
  function TempX(x: seq<bool>, j: nat): bool {
    1 <= j <= |x| && x[j - 1]
  }

  /** bsg_mul_SDN: row i looks at three neighbouring bits; the extra last row is cancelled
      for a signed multiply. */
  function Recode(x: seq<bool>, signed: bool, i: nat): Digit {
    var masked := signed && i == |x| / 2;
    var t0, t1, t2 := TempX(x, 2 * i) && !masked, TempX(x, 2 * i + 1) && !masked, TempX(x, 2 * i + 2) && !masked;
    Digit(t2, (t0 && t1 && !t2) || (!t0 && !t1 && t2), t0 != t1)
  }

  function DigitSum(x: seq<bool>, signed: bool, k: nat): int {
    if k == 0 then 0 else DigitSum(x, signed, k - 1) + Pow2(2 * (k - 1)) * DigitValue(Recode(x, signed, k - 1))
  }

  /** The digit of row i, from the three bits it sees. */
  lemma RecodeValue(x: seq<bool>, signed: bool, i: nat)
    ensures !(Recode(x, signed, i).s && Recode(x, signed, i).d)
    ensures signed && i == |x| / 2 ==> DigitValue(Recode(x, signed, i)) == 0
    ensures !(signed && i == |x| / 2) ==>
              DigitValue(Recode(x, signed, i))
              == Bit(TempX(x, 2 * i)) + Bit(TempX(x, 2 * i + 1)) - 2 * Bit(TempX(x, 2 * i + 2))
  {
  }

  /** Rows 0 .. k - 1 are worth the low 2k bits, the top one of them counted as a sign. */
  lemma {:induction false} DigitPrefix(x: seq<bool>, signed: bool, k: nat)
    requires 2 * k <= |x| && |x| % 2 == 0
    ensures DigitSum(x, signed, k) == Unsigned(x[..2 * k]) - Pow2(2 * k) * Bit(TempX(x, 2 * k))
  {
    hide Recode, DigitValue, Unsigned;
    if k == 0 {
      NoPrefix(x);
    } else {
      DigitPrefix(x, signed, k - 1);
      RecodeValue(x, signed, k - 1);
      var p, j := Pow2(2 * k - 2), 2 * k - 2;
      PrefixMore(x, j);
      PrefixMore(x, j + 1);
      assert Pow2(j + 1) == 2 * p && Pow2(j + 2) == 4 * p;
      DigitStep(p, Bit(TempX(x, j)), Bit(x[j]), Bit(x[j + 1]));
    }
  }

  lemma NoPrefix(x: seq<bool>)
    ensures Unsigned(x[..0]) == 0
  {
  }

  lemma PrefixMore(x: seq<bool>, j: nat)
    requires j < |x|
    ensures Unsigned(x[..j + 1]) == Unsigned(x[..j]) + Pow2(j) * Bit(x[j])
  {
    assert x[..j + 1][..j] == x[..j];
  }

  lemma DigitStep(p: int, a: int, b: int, c: int)
    ensures p * (a + b - 2 * c) == p * a + p * b - 2 * p * c && 4 * p * c == 2 * (2 * p * c)
  {
  }

  /** Recoding is exact: the rows' digits at weights 4^i sum to the operand, read as two's
      complement when signed and as a plain number otherwise. */
  lemma RecodeSum(x: seq<bool>, signed: bool)
    requires |x| % 2 == 0
    ensures DigitSum(x, signed, |x| / 2 + 1) == MultiplicandValue(Multiplicand(x, signed))
    ensures signed ==> DigitSum(x, signed, |x| / 2) == MultiplicandValue(Multiplicand(x, signed))
  {
    hide Recode, DigitValue, Pow2, Unsigned;
    var h := |x| / 2;
    DigitPrefix(x, signed, h);
    RecodeValue(x, signed, h);
    assert x[..2 * h] == x;
    assert 2 * h == |x|;
    assert DigitSum(x, signed, h + 1) == DigitSum(x, signed, h) + Pow2(2 * h) * DigitValue(Recode(x, signed, h));
  }

  // ----- stacking strips ---------------------------------------------------

  /** Strip k serves digit rows 4k .. 4k + 3; its word 0 is the last row of the strip before. */
  function StripDigits(digits: nat -> Digit, k: nat): (d: seq<Digit>)
    ensures |d| == 5
  {
    [if k == 0 then Digit(false, false, false) else digits(4 * k - 1),
     digits(4 * k), digits(4 * k + 1), digits(4 * k + 2), digits(4 * k + 3)]
  }

  /** The first strip's cornice omits the two columns below the product. */
  function StartOf(k: nat): nat {
    if k == 0 then 2 else 0
  }

  /** The number of plain columns in strip k of a multiplier of 8n by 8n bits, and its ending. */
  function PlainOf(n: nat, k: nat): nat
    requires n >= 1
  {
    if k == 0 then 8 * n - 3 else 8 * n - 5
  }

  function EndingOf(n: nat, k: nat): Ending {
    if k == 0 then First else if k == n - 1 then Seven else Eight
  }

  /** The parameter vectors of strip k. */
  function Vectors(n: nat, k: nat): seq<Nibbles>
    requires n >= 1
  {
    Layout(StartOf(k), PlainOf(n, k), EndingOf(n, k))
  }

  predicate StripReady(blocks: seq<Block>, n: nat, k: nat, y: Multiplicand, digits: nat -> Digit)
    requires n >= 1
  {
    && Stable(blocks, Vectors(n, k), false) && blocks != [] && blocks[0].rows >= 8 - StartOf(k)
    && StripWired(blocks, StartOf(k), y, StripDigits(digits, k))
  }

  /** n stacked strips, each a stable strip with its vectors, wired to the multiplicand and its digits. */
  predicate ArrayStable(strips: seq<seq<Block>>, y: Multiplicand, digits: nat -> Digit) {
    && |strips| >= 2 && |y.bits| == 8 * |strips|
    && forall k :: 0 <= k < |strips| ==> StripReady(strips[k], |strips|, k, y, digits)
  }

  /** Outputs of strips 0 .. k - 1, each eight columns further up. */
  function ArrayOutputs(strips: seq<seq<Block>>, k: nat): int
    requires k <= |strips|
  {
    if k == 0 then 0 else ArrayOutputs(strips, k - 1) + Pow2(8 * (k - 1)) * StripOutputs(strips[k - 1], StartOf(k - 1))
  }

  /** What the strips' endings add. */
  function ArrayOnes(n: nat, k: nat): int
    requires n >= 1
  {
    if k == 0 then 0
    else ArrayOnes(n, k - 1) + Pow2(8 * (k - 1)) * (Pow2(8 + PlainOf(n, k - 1)) * EndOnes(EndingOf(n, k - 1)))
  }

  /** The endings fit together: each strip's ones continue the run of the strips before it, so that
      those of all strips amount to one bit just above the product. */
  lemma {:induction false} OnesCancel(n: nat, k: nat)
    requires n >= 2 && 1 <= k <= n
    ensures ArrayOnes(n, k) == Pow2(8 * k + 8 * n + (if k < n then 3 else 2))
  {
    hide Pow2;
    SmallPowers();
    if k == 1 {
      Pow2Add(8 * n + 5, 6);
      assert ArrayOnes(n, 0) == 0;
      assert 8 + PlainOf(n, 0) == 8 * n + 5;
    } else {
      OnesCancel(n, k - 1);
      var q := 8 * (k - 1) + 8 * n + 3;
      assert 8 + PlainOf(n, k - 1) == 8 * n + 3;
      Pow2Add(8 * (k - 1), 8 * n + 3);
      Associate(Pow2(8 * (k - 1)), Pow2(8 * n + 3), EndOnes(EndingOf(n, k - 1)));
      if k < n {
        Pow2Add(q, 8);
        assert q + 8 == 8 * k + 8 * n + 3;
      } else {
        Pow2Add(q, 7);
        assert q + 7 == 8 * k + 8 * n + 2;
      }
    }
  }

  function RowDigits(digits: nat -> Digit, k: nat): int {
    if k == 0 then 0 else RowDigits(digits, k - 1) + Pow2(2 * (k - 1)) * DigitValue(digits(k - 1))
  }

  lemma FourDigits(digits: nat -> Digit, k: nat)
    ensures RowDigits(digits, 4 * (k + 1))
         == RowDigits(digits, 4 * k)
            + Pow2(8 * k) * (DigitValue(digits(4 * k)) + 4 * DigitValue(digits(4 * k + 1))
                             + 16 * DigitValue(digits(4 * k + 2)) + 64 * DigitValue(digits(4 * k + 3)))
  {
    hide DigitValue, Pow2;
    SmallPowers();
    Pow2Add(8 * k, 2);
    Pow2Add(8 * k, 4);
    Pow2Add(8 * k, 6);
    assert RowDigits(digits, 4 * k + 1) == RowDigits(digits, 4 * k) + Pow2(8 * k) * DigitValue(digits(4 * k));
    assert RowDigits(digits, 4 * k + 2) == RowDigits(digits, 4 * k + 1) + Pow2(8 * k + 2) * DigitValue(digits(4 * k + 1));
    assert RowDigits(digits, 4 * k + 3) == RowDigits(digits, 4 * k + 2) + Pow2(8 * k + 4) * DigitValue(digits(4 * k + 2));
    assert RowDigits(digits, 4 * k + 4) == RowDigits(digits, 4 * k + 3) + Pow2(8 * k + 6) * DigitValue(digits(4 * k + 3));
    ScaledDigits(Pow2(8 * k), DigitValue(digits(4 * k)), DigitValue(digits(4 * k + 1)),
                 DigitValue(digits(4 * k + 2)), DigitValue(digits(4 * k + 3)));
  }

  lemma ScaledDigits(p: int, a: int, b: int, c: int, d: int)
    ensures p * (a + 4 * b + 16 * c + 64 * d) == p * a + p * 4 * b + p * 16 * c + p * 64 * d
  {
  }

  /** The stack of strips: every strip's leftover negate bit is the one the next strip adds, so the
      outputs of the lowest k strips are worth four times (sum of 4^i digit_i) times the multiplicand. */
  lemma {:induction false} ArrayMultiplies(strips: seq<seq<Block>>, y: Multiplicand, digits: nat -> Digit, k: nat)
    requires k <= |strips| && ArrayStable(strips, y, digits)
    requires forall i :: !(digits(i).s && digits(i).d)
    ensures ArrayOutputs(strips, k) + (if k == 0 then 0 else Pow2(8 * k) * Bit(digits(4 * k - 1).n))
         == 4 * RowDigits(digits, 4 * k) * MultiplicandValue(y) + ArrayOnes(|strips|, k)
  {
    hide StripReady, StripOutputs, MultiplicandValue, Pow2, DigitValue;
    if k == 0 {
      assert RowDigits(digits, 4 * k) == 0;
    } else {
      ArrayMultiplies(strips, y, digits, k - 1);
      ArrayStep(strips, y, digits, k - 1);
      assert 4 * (k - 1 + 1) == 4 * k && 8 * (k - 1 + 1) == 8 * k;
      TimesDifference(RowDigits(digits, 4 * k), RowDigits(digits, 4 * (k - 1)), MultiplicandValue(y));
    }
  }

  lemma TimesDifference(a: int, b: int, m: int)
    ensures 4 * (a - b) * m == 4 * a * m - 4 * b * m
  {
  }

  /** One strip of the stack carries nothing out and adds its four rows. */
  lemma {:induction false} ArrayStep(strips: seq<seq<Block>>, y: Multiplicand, digits: nat -> Digit, k: nat)
    requires k < |strips| && ArrayStable(strips, y, digits)
    requires forall i :: !(digits(i).s && digits(i).d)
    ensures !CarryOut(strips[k], false)
    ensures Pow2(8 * k) * StripOutputs(strips[k], StartOf(k)) + Pow2(8 * (k + 1)) * Bit(digits(4 * k + 3).n)
         == 4 * (RowDigits(digits, 4 * (k + 1)) - RowDigits(digits, 4 * k)) * MultiplicandValue(y)
            + (if k == 0 then 0 else Pow2(8 * k) * Bit(digits(4 * k - 1).n))
            + Pow2(8 * k) * (Pow2(8 + PlainOf(|strips|, k)) * EndOnes(EndingOf(|strips|, k)))
  {
    hide StripWired, Stable, StripOutputs, Layout, DigitValue, MultiplicandValue, RowDigits, Pow2, EndOnes, CarryOut;
    var d, n := StripDigits(digits, k), |strips|;
    assert StripReady(strips[k], n, k, y, digits);
    StripMultiplies(strips[k], StartOf(k), PlainOf(n, k), EndingOf(n, k), y, d);
    FourDigits(digits, k);
    SmallPowers();
    Pow2Add(8 * k, 8);
    Scale(Pow2(8 * k), StripOutputs(strips[k], StartOf(k)), Bit(d[4].n),
          DigitValue(d[1]) + 4 * DigitValue(d[2]) + 16 * DigitValue(d[3]) + 64 * DigitValue(d[4]),
          MultiplicandValue(y), if k == 0 then 0 else Bit(d[0].n),
          Pow2(8 + PlainOf(n, k)) * EndOnes(EndingOf(n, k)));
  }

  lemma Scale(p: int, out: int, n: int, d: int, m: int, n0: int, ones: int)
    requires out + 256 * n == 4 * d * m + n0 + ones
    ensures p * out + p * 256 * n == 4 * (p * d) * m + p * n0 + p * ones
  {
    assert p * (out + 256 * n) == p * out + p * 256 * n;
    assert p * (4 * d * m + n0 + ones) == 4 * (p * d) * m + p * n0 + p * ones;
  }

  lemma {:induction false} RowDigitsRecoded(x: seq<bool>, signed: bool, digits: nat -> Digit, k: nat)
    requires forall i :: digits(i) == Recode(x, signed, i)
    ensures RowDigits(digits, k) == DigitSum(x, signed, k)
  {
    if k > 0 {
      RowDigitsRecoded(x, signed, digits, k - 1);
    }
  }

  // ----- the extra row -----------------------------------------------------

  /** bsg_mul_green_booth_dots: the last strip's leftover negate bit, and above it the extra row that
      an unsigned operand needs. */
  function GreenDots(negate: bool, select: bool, y: seq<bool>): seq<bool> {
    [negate, false] + seq(|y|, i requires 0 <= i < |y| => select && y[i])
  }

  lemma {:induction false} UnsignedConcat(a: seq<bool>, b: seq<bool>)
    ensures Unsigned(a + b) == Unsigned(a) + Pow2(|a|) * Unsigned(b)
  {
    hide Pow2;
    if b == [] {
      assert a + b == a;
    } else {
      var low, top := b[..|b| - 1], |b| - 1;
      assert (a + b)[..|a + b| - 1] == a + low && (a + b)[|a + b| - 1] == b[top];
      UnsignedConcat(a, low);
      ScaleColumn(|a|, top, Unsigned(low), Bit(b[top]));
    }
  }

  lemma {:induction false} Gated(select: bool, y: seq<bool>, g: seq<bool>)
    requires |g| == |y| && forall i :: 0 <= i < |y| ==> g[i] == (select && y[i])
    ensures Unsigned(g) == Bit(select) * Unsigned(y)
  {
    if y != [] {
      Gated(select, y[..|y| - 1], g[..|g| - 1]);
    }
  }

  lemma GreenValue(negate: bool, select: bool, y: seq<bool>)
    ensures Unsigned(GreenDots(negate, select, y)) == Bit(negate) + 4 * (Bit(select) * Unsigned(y))
  {
    hide Unsigned;
    var g := seq(|y|, i requires 0 <= i < |y| => select && y[i]);
    UnsignedConcat([negate, false], g);
    Gated(select, y, g);
    UnsignedConcat([negate], [false]);
    assert [negate] + [false] == [negate, false];
    OneBit(negate);
    OneBit(false);
    SmallPowers();
  }

  lemma OneBit(b: bool)
    ensures Unsigned([b]) == Bit(b)
  {
    assert [b][..0] == [];
  }

  /** Recoding, strips and the extra row multiply: for operands of 8n bits, signed or unsigned, the
      outputs of all strips and the green dots are worth four times the product, plus one bit that
      lies above the 16n bits of the result. */
  lemma {:induction false} ArrayProduct(strips: seq<seq<Block>>, x: seq<bool>, y: seq<bool>, signed: bool, digits: nat -> Digit)
    requires |x| == |y| == 8 * |strips| && ArrayStable(strips, Multiplicand(y, signed), digits)
    requires forall i :: digits(i) == Recode(x, signed, i)
    ensures ArrayOutputs(strips, |strips|)
            + Pow2(|x|) * Unsigned(GreenDots(digits(|x| / 2 - 1).n, digits(|x| / 2).s, y))
         == 4 * (MultiplicandValue(Multiplicand(x, signed)) * MultiplicandValue(Multiplicand(y, signed))) + Pow2(2 * |x| + 2)
  {
    hide Recode, StripReady, DigitSum, MultiplicandValue, RowDigits, ArrayOnes, ArrayOutputs, GreenDots, Unsigned, Pow2;
    var n := |strips|;
    var digit := digits(4 * n);
    forall i ensures !(digits(i).s && digits(i).d) {
      RecodeValue(x, signed, i);
    }
    assert |x| / 2 == 4 * n && |x| == 8 * n;
    ArrayMultiplies(strips, Multiplicand(y, signed), digits, n);
    OnesCancel(n, n);
    RowDigitsRecoded(x, signed, digits, 4 * n);
    RowDigitsRecoded(x, signed, digits, 4 * n + 1);
    RecodeSum(x, signed);
    LastRow(digits, 4 * n);
    GreenValue(digits(4 * n - 1).n, digit.s, y);
    ExtraRow(x, signed, digit, y);
    FinalStep(Pow2(8 * n), RowDigits(digits, 4 * n), DigitValue(digit), MultiplicandValue(Multiplicand(y, signed)),
              Bit(digits(4 * n - 1).n), Bit(digit.s) * Unsigned(y));
  }

  lemma LastRow(digits: nat -> Digit, k: nat)
    ensures RowDigits(digits, k + 1) == RowDigits(digits, k) + Pow2(2 * k) * DigitValue(digits(k))
  {
  }

  /** The extra row's digit is 0 or 1, and 0 when signed, so an and gate is enough for it. */
  lemma ExtraRow(x: seq<bool>, signed: bool, digit: Digit, y: seq<bool>)
    requires |x| % 2 == 0 && digit == Recode(x, signed, |x| / 2)
    ensures DigitValue(digit) * MultiplicandValue(Multiplicand(y, signed)) == Bit(digit.s) * Unsigned(y)
  {
    assert TempX(x, |x| + 1) == false && TempX(x, |x| + 2) == false;
    assert DigitValue(digit) == Bit(digit.s);
    if !signed {
      assert MultiplicandValue(Multiplicand(y, signed)) == Unsigned(y);
    }
  }

  lemma FinalStep(p: int, rows: int, d: int, m: int, n: int, g: int)
    requires d * m == g
    ensures 4 * rows * m + p * (n + 4 * g) == 4 * ((rows + p * d) * m) + p * n
  {
    Distribute(n, 4 * g, p);
    Distribute(rows, p * d, m);
    Associate(p, d, m);
  }

  /** For every multiplicand, digits and division into blocks, hardened or not, a stable array exists. */
  lemma {:induction false} ArraySettles(n: nat, k: nat, heights: seq<seq<nat>>, hard: bool, y: Multiplicand, digits: nat -> Digit)
    returns (strips: seq<seq<Block>>)
    requires n >= 2 && k <= n == |heights| && |y.bits| == 8 * n
    requires forall j :: 0 <= j < n ==> Division(heights[j], n, j)
    ensures |strips| == k
    ensures forall j :: 0 <= j < k ==> StripReady(strips[j], n, j, y, digits) && Heights(strips[j], heights[j], hard)
    ensures k == n ==> ArrayStable(strips, y, digits)
  {
    hide Stable, StripWired, Vectors;
    if k == 0 {
      strips := [];
    } else {
      var low := ArraySettles(n, k - 1, heights, hard, y, digits);
      assert Division(heights[k - 1], n, k - 1);
      var blocks := StripSettles(Vectors(n, k - 1), heights[k - 1], hard, StartOf(k - 1), false, y, StripDigits(digits, k - 1));
      strips := low + [blocks];
    }
  }

  /** A division of strip k into blocks, the first of which covers the cornice. */
  predicate Division(heights: seq<nat>, n: nat, k: nat)
    requires n >= 1
  {
    && heights != [] && heights[0] >= 8 - StartOf(k) && Sum(heights) == |Vectors(n, k)|
    && forall i :: 0 <= i < |heights| ==> heights[i] > 0
  }
}
