/** A strip of abutted Booth blocks: value conservation along the strip, for any parameter vectors
    and any division into blocks, and what the vectors of the multiplier make it compute: four rows
    of the Booth multiplication. */
module BoothStrip {
  import opened Powers
  import opened Netlist
  import opened BoothBlocks
  import opened BoothRep

  /** One placed block; hard says whether it may be a hardened macro. */
  datatype Block = Block(v: Valuation, rows: nat, hard: bool)

  /** bsg_mul_B4B_rep_rep: each block takes its share of the vectors, and its cl_o drives the next
      one's cr_i. */
  predicate Stable(blocks: seq<Block>, params: seq<Nibbles>, carry: bool) {
    if blocks == [] then params == []
    else
      && 0 < blocks[0].rows <= |params| && blocks[0].v(CrI) == carry
      && RepStable(blocks[0].v, params[..blocks[0].rows], blocks[0].hard)
      && Stable(blocks[1..], params[blocks[0].rows..], blocks[0].v(ClO))
  }

  function CarryOut(blocks: seq<Block>, carry: bool): bool {
    if blocks == [] then carry else CarryOut(blocks[1..], blocks[0].v(ClO))
  }

  /** Weighted sum of all sum and carry outputs, carries weighing double. */
  function StripOutputs(blocks: seq<Block>, base: nat): int {
    if blocks == [] then 0
    else Pow2(base) * Outputs(blocks[0].v, blocks[0].rows) + StripOutputs(blocks[1..], base + blocks[0].rows)
  }

  /** Weighted sum of the partial-product and negate bits, barred dots counted as signs. */
  function StripWeights(blocks: seq<Block>, params: seq<Nibbles>, base: nat): int {
    if blocks == [] || blocks[0].rows > |params| then 0
    else Pow2(base) * Weights(blocks[0].v, params[..blocks[0].rows], blocks[0].rows)
         + StripWeights(blocks[1..], params[blocks[0].rows..], base + blocks[0].rows)
  }

  predicate NoNegates(params: seq<Nibbles>) {
    forall i :: 0 <= i < |params| ==> params[i].above == 0
  }

  lemma {:induction false} NoCornice(params: seq<Nibbles>)
    requires NoNegates(params)
    ensures Choose(params) != CorniceMacro
  {
    hide IsBody, IsEnd;
    assert Cornice8[0].above == 1 && Cornice6[0].above == 2;
  }

  lemma {:induction false} OnesExtend(params: seq<Nibbles>, r: nat, k: nat)
    requires k <= r <= |params|
    ensures Ones(params[..r], k) == Ones(params, k)
  {
    if k > 0 {
      OnesExtend(params, r, k - 1);
    }
  }

  lemma {:induction false} OnesSplit(params: seq<Nibbles>, r: nat, m: nat)
    requires r + m <= |params|
    ensures Ones(params, r + m) == Ones(params[..r], r) + Pow2(r) * Ones(params[r..], m)
  {
    hide ColumnOnes;
    if m == 0 {
      OnesExtend(params, r, r);
    } else {
      OnesSplit(params, r, m - 1);
      assert params[r..][m - 1] == params[r + m - 1];
      ScaleColumn(r, m - 1, Ones(params[r..], m - 1), ColumnOnes(params[r + m - 1]));
    }
  }

  lemma ScaleColumn(a: nat, b: nat, sum: int, x: int)
    ensures Pow2(a) * (sum + Pow2(b) * x) == Pow2(a) * sum + Pow2(a + b) * x
  {
    Pow2Add(a, b);
    Distribute(sum, Pow2(b) * x, Pow2(a));
    Associate(Pow2(a), Pow2(b), x);
  }

  lemma Associate(a: int, b: int, c: int)
    ensures a * (b * c) == a * b * c
  {
  }

  /** One block in front of a strip. */
  lemma BlockStep(p: nat, r: nat, out: int, carryOut: nat, weight: int, ones: int, restOnes: int, carryIn: nat)
    requires out + r * carryOut == weight + ones + carryIn
    ensures p * out + p * r * carryOut + p * r * restOnes == p * weight + p * (ones + r * restOnes) + p * carryIn
  {
    Distribute(out, r * carryOut, p);
    Distribute(weight + ones, carryIn, p);
    Distribute(weight, ones, p);
    Distribute(ones, r * restOnes, p);
    Associate(p, r, carryOut);
    Associate(p, r, restOnes);
  }

  lemma {:induction false} BlocksConserve(blocks: seq<Block>, params: seq<Nibbles>, base: nat, carry: bool)
    requires Stable(blocks, params, carry)
    requires blocks != [] ==> (Choose(params[..blocks[0].rows]) == CorniceMacro ==> !carry)
    requires blocks != [] ==> NoNegates(params[blocks[0].rows..])
    ensures StripOutputs(blocks, base) + Pow2(base + |params|) * Bit(CarryOut(blocks, carry))
         == StripWeights(blocks, params, base) + Pow2(base) * Ones(params, |params|) + Pow2(base) * Bit(carry)
  {
    hide Outputs, Weights, Ones, Pow2, RepStable, Choose, NoNegates;
    if blocks == [] {
      assert Ones(params, 0) == 0 by {
        NoOnes(params);
      }
    } else {
      var b, r := blocks[0], blocks[0].rows;
      RepConserves(b.v, params[..r], b.hard);
      RestStarts(blocks[1..], params[r..]);
      BlocksConserve(blocks[1..], params[r..], base + r, b.v(ClO));
      assert base + r + |params[r..]| == base + |params|;
      OnesSplit(params, r, |params| - r);
      Pow2Add(base, r);
      BlockStep(Pow2(base), Pow2(r), Outputs(b.v, r), Bit(b.v(ClO)), Weights(b.v, params[..r], r),
                Ones(params[..r], r), Ones(params[r..], |params| - r), Bit(carry));
    }
  }

  lemma NoOnes(params: seq<Nibbles>)
    ensures Ones(params, 0) == 0
  {
  }

  lemma {:induction false} RestStarts(blocks: seq<Block>, params: seq<Nibbles>)
    requires NoNegates(params)
    ensures blocks != [] && blocks[0].rows <= |params| ==>
              Choose(params[..blocks[0].rows]) != CorniceMacro && NoNegates(params[blocks[0].rows..])
  {
    if blocks != [] && blocks[0].rows <= |params| {
      NoCornice(params[..blocks[0].rows]);
    }
  }

  /** Value conservation along a whole strip, for any parameter vectors whose negate bits are in the
      first block, any number of blocks of any heights, hardened or not: the outputs are worth
      exactly the dots and negate bits, barred dots counted as sign bits, plus the ones the vectors
      put in, less a carry out of the last block. */
  lemma {:induction false} StripConserves(blocks: seq<Block>, params: seq<Nibbles>, base: nat)
    requires Stable(blocks, params, false)
    requires blocks != [] ==> NoNegates(params[blocks[0].rows..])
    ensures StripOutputs(blocks, base) + Pow2(base + |params|) * Bit(CarryOut(blocks, false))
         == StripWeights(blocks, params, base) + Pow2(base) * Ones(params, |params|)
  {
    hide Outputs, Weights, Ones, Pow2, RepStable, Choose, NoNegates;
    BlocksConserve(blocks, params, base, false);
  }

  // ----- the multiplier's parameter vectors --------------------------------

  /** How a strip ends: the first one in six columns, the last one in seven, the others in eight. */
  datatype Ending = First | Eight | Seven

  function EndVectors(k: Ending): seq<Nibbles> {
    match k case First => FirstEnd case Eight => End8 case Seven => End7
  }

  /** A cornice, columns in which every row has a plain dot, and an ending. start is 0 for the
      eight-row cornice and 2 for the six-row one; columns count from 0 at the full cornice. */
  function Layout(start: nat, plain: nat, k: Ending): (params: seq<Nibbles>) {
    (if start == 0 then Cornice8 else Cornice6) + seq(plain, _ => Zero) + EndVectors(k)
  }

  function EndRows(k: Ending): nat {
    match k case First => 6 case Eight => 8 case Seven => 7
  }

  /** Column of a row's sign, counted from the ending. */
  function SignAt(k: Ending, i: nat): nat {
    if k != First then 2 * i else if i == 0 then 0 else 2 * i - 2
  }

  /** What the ending's barred dots and ones add up to: all ones, and for the first strip one more,
      which makes it a single bit above the strip. */
  function EndOnes(k: Ending): nat {
    match k case First => 64 case Eight => 255 case Seven => 127
  }

  /** What the vectors say: in column c, row i. */
  function LayoutPick(e: nat, k: Ending, c: nat, i: nat): Pick {
    if c < 8 then CornicePick(c, i) else if c < e then Plain
    else EndPick(SignAt(k, i), i > 0 || k != First, c - e)
  }

  lemma LayoutNibbles(start: nat, plain: nat, k: Ending, c: nat, i: nat)
    requires start in {0, 2} && start <= c < 8 + plain + EndRows(k) && i < 4
    ensures |Layout(start, plain, k)| == 8 - start + plain + EndRows(k)
    ensures PickOf(Layout(start, plain, k)[c - start], i) == LayoutPick(8 + plain, k, c, i)
  {
    hide PickOf, Layout, CornicePick, EndPick;
    LayoutParts(start, plain, k, c - start);
    if c < 8 {
      CorniceNibbles(if start == 0 then Cornice8 else Cornice6, c - start, i);
    } else if c < 8 + plain {
      ZeroNibbles(i);
    } else if k == First {
      FirstEndNibbles(c - 8 - plain, i);
    } else {
      EndNibbles(EndVectors(k), c - 8 - plain, i);
    }
  }

  lemma ZeroNibbles(i: nat)
    ensures PickOf(Zero, i) == Plain
  {
  }

  lemma LayoutParts(start: nat, plain: nat, k: Ending, j: nat)
    requires start in {0, 2} && j < 8 - start + plain + EndRows(k)
    ensures |EndVectors(k)| == EndRows(k) && |Layout(start, plain, k)| == 8 - start + plain + EndRows(k)
    ensures var low := 8 - start;
            Layout(start, plain, k)[j]
            == if j < low then (if start == 0 then Cornice8 else Cornice6)[j]
               else if j < low + plain then Zero else EndVectors(k)[j - low - plain]
  {
  }

  lemma {:induction false} ZeroOnes(params: seq<Nibbles>, from: nat, k: nat)
    requires from <= k <= |params| && Ones(params, from) == 0
    requires forall j :: from <= j < k ==> ColumnOnes(params[j]) == 0
    ensures Ones(params, k) == 0
  {
    hide ColumnOnes;
    if from < k {
      ZeroOnes(params, from, k - 1);
    }
  }

  /** The ones a layout puts in, at the weight of the column where it ends. */
  lemma LayoutOnes(start: nat, plain: nat, k: Ending)
    requires start in {0, 2}
    ensures var params := Layout(start, plain, k);
            Pow2(start) * Ones(params, |params|) == Pow2(8 + plain) * EndOnes(k)
  {
    hide Ones, PickOf, Layout, LayoutPick, ColumnOnes;
    var params, low := Layout(start, plain, k), 8 - start + plain;
    LayoutNibbles(start, plain, k, start, 0);
    NoOnes(params);
    forall j | 0 <= j < low ensures ColumnOnes(params[j]) == 0 {
      LayoutColumnOnes(start, plain, k, start + j);
    }
    ZeroOnes(params, 0, low);
    OnesSplit(params, low, EndRows(k));
    OnesExtend(params, low, low);
    EndingOnes(start, plain, k);
    Pow2Add(start, low);
    Associate(Pow2(start), Pow2(low), EndOnes(k));
    assert start + low == 8 + plain;
  }

  lemma LayoutColumnOnes(start: nat, plain: nat, k: Ending, c: nat)
    requires start in {0, 2} && start <= c < 8 + plain
    ensures |Layout(start, plain, k)| == 8 - start + plain + EndRows(k)
    ensures ColumnOnes(Layout(start, plain, k)[c - start]) == 0
  {
    hide PickOf, Layout;
    LayoutNibbles(start, plain, k, c, 0);
    LayoutNibbles(start, plain, k, c, 1);
    LayoutNibbles(start, plain, k, c, 2);
    LayoutNibbles(start, plain, k, c, 3);
  }

  lemma EndingOnes(start: nat, plain: nat, k: Ending)
    requires start in {0, 2}
    ensures var params, low := Layout(start, plain, k), 8 - start + plain;
            |params| == low + EndRows(k) && Ones(params[low..], EndRows(k)) == EndOnes(k)
  {
    hide PickOf, ColumnOnes;
    var params, low := Layout(start, plain, k), 8 - start + plain;
    assert params[low..] == EndVectors(k);
    if k == First {
      FirstEndOnes();
    } else {
      EndOnesSum(EndVectors(k));
    }
  }

  lemma EndOnesSum(params: seq<Nibbles>)
    requires params == End7 || params == End8
    ensures Ones(params, |params|) == if params == End7 then 127 else 255
  {
    hide Ones, ColumnWeight, EndColumn;
    EndWeights(_ => false, params, |params|);
    SmallPowers();
  }

  lemma FirstEndOnes()
    ensures Ones(FirstEnd, 6) == 64
  {
    hide Pow2, ColumnOnes;
    FirstEndColumnOnes();
    SmallPowers();
    assert Ones(FirstEnd, 0) == 0;
    assert Ones(FirstEnd, 1) == 2;
    assert Ones(FirstEnd, 2) == 4;
    assert Ones(FirstEnd, 3) == 8;
    assert Ones(FirstEnd, 4) == 16;
    assert Ones(FirstEnd, 5) == 32;
  }

  lemma FirstEndColumnOnes()
    ensures ColumnOnes(FirstEnd[0]) == 2
    ensures forall j :: 0 < j < 6 ==> ColumnOnes(FirstEnd[j]) == 1
  {
    hide PickOf;
    forall j | 0 <= j < 6 ensures ColumnOnes(FirstEnd[j]) == if j == 0 then 2 else 1 {
      FirstEndNibbles(j, 0);
      FirstEndNibbles(j, 1);
      FirstEndNibbles(j, 2);
      FirstEndNibbles(j, 3);
    }
  }

  lemma SmallPowers()
    ensures Pow2(0) == 1 && Pow2(1) == 2 && Pow2(2) == 4 && Pow2(3) == 8 && Pow2(4) == 16
    ensures Pow2(5) == 32 && Pow2(6) == 64 && Pow2(7) == 128 && Pow2(8) == 256
  {
    assert Pow2(3) == 8 && Pow2(6) == 64;
  }

  // ----- what the strip computes -------------------------------------------

  /** A recoded Booth digit as the SDN triple presents it: negate, double, select. */
  datatype Digit = Digit(n: bool, d: bool, s: bool)

  function DigitValue(g: Digit): int {
    var m := Bit(g.s) + 2 * Bit(g.d);
    if g.n then 0 - m else m
  }

  /** The multiplicand y_i as y_pad presents it: zeros below, eight copies of the sign above, and a
      zero above those. */
  datatype Multiplicand = Multiplicand(bits: seq<bool>, signed: bool)

  function YAt(y: Multiplicand, i: int): bool {
    if i < 0 then false
    else if i < |y.bits| then y.bits[i]
    else i < |y.bits| + 8 && y.signed && y.bits != [] && y.bits[|y.bits| - 1]
  }

  /** The number y_i stands for. */
  function MultiplicandValue(y: Multiplicand): int {
    Unsigned(y.bits) - if y.signed && y.bits != [] && y.bits[|y.bits| - 1] then Pow2(|y.bits|) else 0
  }

  function Unsigned(b: seq<bool>): int {
    if b == [] then 0 else Unsigned(b[..|b| - 1]) + Pow2(|b| - 1) * Bit(b[|b| - 1])
  }

  /** The dot of a row at distance i from its lowest column. */
  function RowDot(y: Multiplicand, g: Digit, i: int): bool {
    Dot(g.n, g.d, g.s, YAt(y, i - 1), YAt(y, i))
  }

  function RowSum(y: Multiplicand, g: Digit, len: nat): int {
    if len == 0 then 0 else RowSum(y, g, len - 1) + Pow2(len - 1) * Bit(RowDot(y, g, len - 1))
  }

  /** Block ports driven by the digits and the padded multiplicand; column is the strip column of
      the block's row 0. */
  predicate Wired(v: Valuation, column: nat, rows: nat, y: Multiplicand, digits: seq<Digit>)
    requires |digits| == 5
  {
    && (forall w :: 0 <= w < 5 ==>
          v(SdnBit(w, 0)) == digits[w].n && v(SdnBit(w, 1)) == digits[w].d && v(SdnBit(w, 2)) == digits[w].s)
    && (forall pos, w :: 0 <= pos < rows && 0 <= w < 4 ==>
          v(YBit(pos, w, 1)) == YAt(y, column + pos - 2 * w - 2) && v(YBit(pos, w, 0)) == YAt(y, column + pos - 2 * w - 3))
  }

  predicate StripWired(blocks: seq<Block>, base: nat, y: Multiplicand, digits: seq<Digit>)
    requires |digits| == 5
  {
    blocks == [] || (Wired(blocks[0].v, base, blocks[0].rows, y, digits)
                     && StripWired(blocks[1..], base + blocks[0].rows, y, digits))
  }

  lemma WiredDot(v: Valuation, column: nat, rows: nat, y: Multiplicand, digits: seq<Digit>, pos: nat, w: nat)
    requires |digits| == 5 && Wired(v, column, rows, y, digits) && pos < rows && w < 4
    ensures DotAt(v, pos, w) == RowDot(y, digits[w + 1], column + pos - 2 - 2 * w)
  {
    hide SdnBit, YBit, YAt, Dot;
    var c := column + pos;
    assert v(YBit(pos, w, 1)) == YAt(y, c - 2 * w - 2) && v(YBit(pos, w, 0)) == YAt(y, c - 2 * w - 3);
    assert c - 2 * w - 3 == c - 2 - 2 * w - 1;
    assert v(SdnBit(w + 1, 0)) == digits[w + 1].n && v(SdnBit(w + 1, 1)) == digits[w + 1].d
        && v(SdnBit(w + 1, 2)) == digits[w + 1].s;
  }

  /** What row i contributes in column c of a wired strip. */
  function CellWeight(y: Multiplicand, digits: seq<Digit>, p: Nibbles, c: nat, i: nat): int
    requires |digits| == 5 && i < 4
  {
    PickWeight(PickOf(p, i), digits[i].n, RowDot(y, digits[i + 1], c - 2 - 2 * i))
  }

  function ColumnValue(y: Multiplicand, digits: seq<Digit>, p: Nibbles, c: nat): int
    requires |digits| == 5
  {
    CellWeight(y, digits, p, c, 0) + CellWeight(y, digits, p, c, 1)
    + CellWeight(y, digits, p, c, 2) + CellWeight(y, digits, p, c, 3)
  }

  function ColumnValues(y: Multiplicand, digits: seq<Digit>, params: seq<Nibbles>, base: nat, k: nat): int
    requires |digits| == 5 && k <= |params|
  {
    if k == 0 then 0
    else ColumnValues(y, digits, params, base, k - 1) + Pow2(base + k - 1) * ColumnValue(y, digits, params[k - 1], base + k - 1)
  }

  lemma WiredColumn(v: Valuation, base: nat, rows: nat, y: Multiplicand, digits: seq<Digit>, pos: nat, p: Nibbles)
    requires |digits| == 5 && pos < rows && Wired(v, base, rows, y, digits)
    ensures ColumnWeight(v, pos, p) == ColumnValue(y, digits, p, base + pos)
  {
    hide Wired, PickOf, PickWeight, RowDot, DotAt, SdnBit;
    WiredCell(v, base, rows, y, digits, pos, p, 0);
    WiredCell(v, base, rows, y, digits, pos, p, 1);
    WiredCell(v, base, rows, y, digits, pos, p, 2);
    WiredCell(v, base, rows, y, digits, pos, p, 3);
  }

  lemma WiredCell(v: Valuation, base: nat, rows: nat, y: Multiplicand, digits: seq<Digit>, pos: nat, p: Nibbles, i: nat)
    requires |digits| == 5 && pos < rows && Wired(v, base, rows, y, digits) && i < 4
    ensures Weight(v, pos, p, i) == CellWeight(y, digits, p, base + pos, i)
  {
    hide PickOf, PickWeight, RowDot, DotAt, SdnBit, YBit, YAt;
    WiredDot(v, base, rows, y, digits, pos, i);
    assert v(SdnBit(i, 0)) == digits[i].n;
  }

  lemma {:induction false} BlockMeaning(v: Valuation, params: seq<Nibbles>, base: nat, k: nat, y: Multiplicand, digits: seq<Digit>)
    requires |digits| == 5 && k <= |params| && Wired(v, base, |params|, y, digits)
    ensures Pow2(base) * Weights(v, params, k) == ColumnValues(y, digits, params, base, k)
  {
    hide Wired, ColumnWeight, ColumnValue, Pow2;
    if k > 0 {
      BlockMeaning(v, params, base, k - 1, y, digits);
      WiredColumn(v, base, |params|, y, digits, k - 1, params[k - 1]);
      ScaleColumn(base, k - 1, Weights(v, params, k - 1), ColumnWeight(v, k - 1, params[k - 1]));
    }
  }

  lemma {:induction false} ColumnsSplit(y: Multiplicand, digits: seq<Digit>, params: seq<Nibbles>, base: nat, r: nat, m: nat)
    requires |digits| == 5 && r + m <= |params|
    ensures ColumnValues(y, digits, params, base, r + m)
         == ColumnValues(y, digits, params[..r], base, r) + ColumnValues(y, digits, params[r..], base + r, m)
  {
    hide ColumnValue, Pow2;
    if m == 0 {
      ColumnsPrefix(y, digits, params, base, r, r);
    } else {
      ColumnsSplit(y, digits, params, base, r, m - 1);
      assert params[r..][m - 1] == params[r + m - 1];
    }
  }

  lemma {:induction false} ColumnsPrefix(y: Multiplicand, digits: seq<Digit>, params: seq<Nibbles>, base: nat, r: nat, k: nat)
    requires |digits| == 5 && k <= r <= |params|
    ensures ColumnValues(y, digits, params[..r], base, k) == ColumnValues(y, digits, params, base, k)
  {
    hide ColumnValue, Pow2;
    if k > 0 {
      ColumnsPrefix(y, digits, params, base, r, k - 1);
    }
  }

  /** The division into blocks does not matter. */
  lemma {:induction false} StripMeaning(blocks: seq<Block>, params: seq<Nibbles>, base: nat, carry: bool,
                                        y: Multiplicand, digits: seq<Digit>)
    requires |digits| == 5 && Stable(blocks, params, carry) && StripWired(blocks, base, y, digits)
    ensures StripWeights(blocks, params, base) == ColumnValues(y, digits, params, base, |params|)
  {
    hide Wired, RepStable, Weights, ColumnValues, Pow2;
    if blocks == [] {
      NoColumns(y, digits, params, base);
    } else {
      var r := blocks[0].rows;
      BlockMeaning(blocks[0].v, params[..r], base, r, y, digits);
      StripMeaning(blocks[1..], params[r..], base + r, blocks[0].v(ClO), y, digits);
      ColumnsSplit(y, digits, params, base, r, |params| - r);
    }
  }

  lemma NoColumns(y: Multiplicand, digits: seq<Digit>, params: seq<Nibbles>, base: nat)
    requires |digits| == 5
    ensures ColumnValues(y, digits, params, base, 0) == 0
  {
  }

  /** Contribution of row w (lowest column 2 + 2w) from the columns below c. */
  function RowBelow(y: Multiplicand, digits: seq<Digit>, w: nat, c: nat): int
    requires |digits| == 5 && w < 4
  {
    if c < 2 + 2 * w then 0 else Pow2(2 + 2 * w) * RowSum(y, digits[w + 1], c - 2 - 2 * w)
  }

  lemma RowBelowStep(y: Multiplicand, digits: seq<Digit>, w: nat, c: nat)
    requires |digits| == 5 && w < 4
    ensures RowBelow(y, digits, w, c + 1)
         == RowBelow(y, digits, w, c)
            + (if c < 2 + 2 * w then 0 else Pow2(c) * Bit(RowDot(y, digits[w + 1], c - 2 - 2 * w)))
  {
    hide RowDot, Pow2;
    if c >= 2 + 2 * w {
      var i := c - 2 - 2 * w;
      var p, d := Pow2(2 + 2 * w), Bit(RowDot(y, digits[w + 1], i));
      Pow2Add(2 + 2 * w, i);
      Distribute(RowSum(y, digits[w + 1], i), Pow2(i) * d, p);
      assert p * (Pow2(i) * d) == p * Pow2(i) * d;
    } else if c == 1 + 2 * w {
      assert RowSum(y, digits[w + 1], 0) == 0;
    }
  }

  /** Row w from the columns below c when its sign is in column sign. */
  function SignedBelow(y: Multiplicand, digits: seq<Digit>, w: nat, sign: nat, c: nat): int
    requires |digits| == 5 && w < 4
  {
    if c <= sign then RowBelow(y, digits, w, c)
    else RowBelow(y, digits, w, sign) - Pow2(sign) * Bit(RowDot(y, digits[w + 1], sign - 2 - 2 * w))
  }

  lemma SignedBelowStep(y: Multiplicand, digits: seq<Digit>, w: nat, sign: nat, c: nat)
    requires |digits| == 5 && w < 4 && sign >= 2 + 2 * w
    ensures SignedBelow(y, digits, w, sign, c + 1)
         == SignedBelow(y, digits, w, sign, c)
            + Pow2(c) * (if c < 2 + 2 * w || c > sign then 0
                         else if c < sign then Bit(RowDot(y, digits[w + 1], c - 2 - 2 * w))
                         else Sign(RowDot(y, digits[w + 1], c - 2 - 2 * w)))
  {
    hide RowDot, Pow2, RowBelow;
    RowBelowStep(y, digits, w, c);
    assert Pow2(c) * Sign(RowDot(y, digits[w + 1], c - 2 - 2 * w))
        == -(Pow2(c) * Bit(RowDot(y, digits[w + 1], c - 2 - 2 * w)));
  }

  /** Negate bits entering in columns start .. c - 1, one at each even column. */
  function Negates(digits: seq<Digit>, start: nat, c: nat): int
    requires |digits| == 5 && c <= 8
  {
    if c <= start then 0
    else Negates(digits, start, c - 1) + (if c % 2 == 1 then Pow2(c - 1) * Bit(digits[(c - 1) / 2].n) else 0)
  }

  /** All that has been added up below column c. */
  function Below(y: Multiplicand, digits: seq<Digit>, start: nat, e: nat, k: Ending, c: nat): int
    requires |digits| == 5
  {
    Negates(digits, start, if c <= 8 then c else 8)
    + SignedBelow(y, digits, 0, e + SignAt(k, 0), c) + SignedBelow(y, digits, 1, e + SignAt(k, 1), c)
    + SignedBelow(y, digits, 2, e + SignAt(k, 2), c) + SignedBelow(y, digits, 3, e + SignAt(k, 3), c)
  }

  /** Row i's share of a layout's column. */
  lemma LayoutCell(y: Multiplicand, digits: seq<Digit>, start: nat, plain: nat, k: Ending, c: nat, i: nat)
    requires start in {0, 2} && start <= c < 8 + plain + EndRows(k) && |digits| == 5 && i < 4
    ensures |Layout(start, plain, k)| == 8 - start + plain + EndRows(k)
    ensures var sign := 8 + plain + SignAt(k, i);
            Pow2(c) * CellWeight(y, digits, Layout(start, plain, k)[c - start], c, i)
            == SignedBelow(y, digits, i, sign, c + 1) - SignedBelow(y, digits, i, sign, c)
               + (if c == 2 * i then Pow2(c) * Bit(digits[i].n) else 0)
  {
    hide PickOf, RowDot, SignedBelow, Pow2, Layout;
    LayoutNibbles(start, plain, k, c, i);
    SignedBelowStep(y, digits, i, 8 + plain + SignAt(k, i), c);
  }

  lemma LayoutColumn(y: Multiplicand, digits: seq<Digit>, start: nat, plain: nat, k: Ending, c: nat)
    requires start in {0, 2} && start <= c < 8 + plain + EndRows(k) && |digits| == 5
    ensures |Layout(start, plain, k)| == 8 - start + plain + EndRows(k)
    ensures Pow2(c) * ColumnValue(y, digits, Layout(start, plain, k)[c - start], c)
         == Below(y, digits, start, 8 + plain, k, c + 1) - Below(y, digits, start, 8 + plain, k, c)
  {
    hide CellWeight, SignedBelow, Pow2, Layout, SignAt, Bit;
    LayoutCell(y, digits, start, plain, k, c, 0);
    LayoutCell(y, digits, start, plain, k, c, 1);
    LayoutCell(y, digits, start, plain, k, c, 2);
    LayoutCell(y, digits, start, plain, k, c, 3);
    var p := Layout(start, plain, k)[c - start];
    Expand4(Pow2(c), CellWeight(y, digits, p, c, 0), CellWeight(y, digits, p, c, 1),
            CellWeight(y, digits, p, c, 2), CellWeight(y, digits, p, c, 3));
  }

  lemma {:induction false} LayoutMeaning(y: Multiplicand, digits: seq<Digit>, start: nat, plain: nat, k: Ending, j: nat)
    requires start in {0, 2} && j <= 8 - start + plain + EndRows(k) && |digits| == 5
    ensures |Layout(start, plain, k)| == 8 - start + plain + EndRows(k)
    ensures ColumnValues(y, digits, Layout(start, plain, k), start, j) == Below(y, digits, start, 8 + plain, k, start + j)
  {
    hide ColumnValue, Below, Pow2, Layout;
    if j == 0 {
      NothingBelow(y, digits, start, 8 + plain, k);
      LayoutNibbles(start, plain, k, start, 0);
    } else {
      LayoutMeaning(y, digits, start, plain, k, j - 1);
      LayoutColumn(y, digits, start, plain, k, start + j - 1);
    }
  }

  lemma NothingBelow(y: Multiplicand, digits: seq<Digit>, start: nat, e: nat, k: Ending)
    requires |digits| == 5 && start in {0, 2} && e >= 8
    ensures Below(y, digits, start, e, k, start) == 0
  {
    assert RowSum(y, digits[1], 0) == 0;
  }

  lemma Expand4(p: int, a: int, b: int, c: int, d: int)
    ensures p * (a + b + c + d) == p * a + p * b + p * c + p * d
  {
  }

  /** Row w read as a two's-complement number whose sign bit is at distance len. */
  function RowSigned(y: Multiplicand, g: Digit, len: nat): int {
    RowSum(y, g, len) - Pow2(len) * Bit(RowDot(y, g, len))
  }

  /** Row w once its sign column is past. */
  lemma RowEnds(y: Multiplicand, digits: seq<Digit>, w: nat, sign: nat, c: nat)
    requires |digits| == 5 && w < 4 && 2 + 2 * w <= sign < c
    ensures SignedBelow(y, digits, w, sign, c) == Pow2(2 + 2 * w) * RowSigned(y, digits[w + 1], sign - 2 - 2 * w)
  {
    hide RowDot, Pow2;
    var l := sign - 2 - 2 * w;
    Pow2Add(2 + 2 * w, l);
    var b: int := Bit(RowDot(y, digits[w + 1], l));
    Distribute(RowSum(y, digits[w + 1], l), -(Pow2(l) * b), Pow2(2 + 2 * w));
    Associate(Pow2(2 + 2 * w), Pow2(l), b);
    assert Pow2(2 + 2 * w) * (-(Pow2(l) * b)) == -(Pow2(2 + 2 * w) * (Pow2(l) * b));
  }

  // ----- the value of one row ----------------------------------------------

  /** sum of y's padded bits below len, with bit len as the sign, for any len past the word
      that the padding covers. */
  function Padded(y: Multiplicand, len: nat): int {
    PaddedSum(y, len) - Pow2(len) * Bit(YAt(y, len))
  }

  function PaddedSum(y: Multiplicand, len: nat): int {
    if len == 0 then 0 else PaddedSum(y, len - 1) + Pow2(len - 1) * Bit(YAt(y, len - 1))
  }

  lemma {:induction false} PaddedPrefix(y: Multiplicand, len: nat)
    requires len <= |y.bits|
    ensures PaddedSum(y, len) == Unsigned(y.bits[..len])
  {
    if len > 0 {
      PaddedPrefix(y, len - 1);
      assert y.bits[..len][..len - 1] == y.bits[..len - 1];
    }
  }

  /** Sign extension does not change the value. */
  lemma {:induction false} PaddedValue(y: Multiplicand, len: nat)
    requires |y.bits| <= len < |y.bits| + 8
    ensures Padded(y, len) == MultiplicandValue(y)
  {
    if len == |y.bits| {
      PaddedPrefix(y, len);
      assert y.bits[..len] == y.bits;
    } else {
      PaddedValue(y, len - 1);
      assert YAt(y, len) == YAt(y, len - 1);
      assert Pow2(len) * Bit(YAt(y, len)) == 2 * (Pow2(len - 1) * Bit(YAt(y, len)));
    }
  }

  lemma WeighedBit(p: nat, b: bool)
    ensures p * Bit(b) == (if b then p else 0) && p * Bit(!b) == (if b then 0 else p)
    ensures 2 * p * Bit(b) == 2 * (p * Bit(b))
  {
  }

  lemma {:induction false} RowSumValue(y: Multiplicand, g: Digit, len: nat)
    requires !(g.s && g.d)
    ensures var m := if g.d then (if len == 0 then 0 else 2 * PaddedSum(y, len - 1))
                     else if g.s then PaddedSum(y, len) else 0;
            RowSum(y, g, len) == if g.n then Pow2(len) - 1 - m else m
  {
    if len > 0 {
      RowSumValue(y, g, len - 1);
      var b := RowDot(y, Digit(false, g.d, g.s), len - 1);
      assert RowDot(y, g, len - 1) == (b != g.n);
      WeighedBit(Pow2(len - 1), b);
      if g.d && len > 1 {
        assert b == YAt(y, len - 2);
        WeighedBit(Pow2(len - 2), b);
      }
    }
  }

  /** A row long enough to hold twice the multiplicand, and no longer than the padding, is worth digit
      times multiplicand, less the negate bit that completes its two's complement. */
  lemma RowValue(y: Multiplicand, g: Digit, len: nat)
    requires !(g.s && g.d) && |y.bits| < len < |y.bits| + 8
    ensures RowSigned(y, g, len) == DigitValue(g) * MultiplicandValue(y) - Bit(g.n)
  {
    hide YAt, MultiplicandValue, RowSum, PaddedSum;
    RowSumValue(y, g, len);
    PaddedValue(y, len);
    PaddedValue(y, len - 1);
    SignWeight(Pow2(len - 1), RowDot(y, Digit(false, g.d, g.s), len));
  }

  lemma SignWeight(h: nat, b: bool)
    ensures 2 * h * Bit(!b) == 2 * h - 2 * h * Bit(b) && 2 * h * Bit(b) == 2 * (h * Bit(b))
  {
  }

  lemma NegatesValue(digits: seq<Digit>, start: nat)
    requires |digits| == 5 && start in {0, 2}
    ensures Negates(digits, start, 8)
         == (if start == 0 then Bit(digits[0].n) else 0)
            + 4 * Bit(digits[1].n) + 16 * Bit(digits[2].n) + 64 * Bit(digits[3].n)
  {
    hide Pow2;
    SmallPowers();
    assert Negates(digits, start, 8) == Negates(digits, start, 7);
    assert Negates(digits, start, 7) == Negates(digits, start, 6) + 64 * Bit(digits[3].n);
    assert Negates(digits, start, 6) == Negates(digits, start, 5);
    assert Negates(digits, start, 5) == Negates(digits, start, 4) + 16 * Bit(digits[2].n);
    assert Negates(digits, start, 4) == Negates(digits, start, 3);
    assert Negates(digits, start, 3) == Negates(digits, start, 2) + 4 * Bit(digits[1].n);
    if start == 0 {
      assert Negates(digits, start, 2) == Negates(digits, start, 1) == Bit(digits[0].n);
    }
  }

  /** The same for the multiplier's strips: a cornice, plain columns cut into blocks of any heights and
      an ending, whose ones stand at its base weight; nothing is carried out. */
  lemma {:induction false} LayoutConserves(blocks: seq<Block>, start: nat, plain: nat, k: Ending)
    requires start in {0, 2} && Stable(blocks, Layout(start, plain, k), false)
    requires blocks != [] && blocks[0].rows >= 8 - start
    ensures !CarryOut(blocks, false)
    ensures StripOutputs(blocks, start)
         == StripWeights(blocks, Layout(start, plain, k), start) + Pow2(8 + plain) * EndOnes(k)
  {
    hide Stable, StripOutputs, StripWeights, Layout, Ones, CarryOut, Pow2;
    var params := Layout(start, plain, k);
    LateNegates(blocks, start, plain, k);
    StripConserves(blocks, params, start);
    LayoutOnes(start, plain, k);
    LayoutTop(start, plain, k);
    LastCarry(blocks, params, false);
    LowBit(CarryOut(blocks, false), Pow2(start + |params|));
  }

  /** Where the ending may start for a multiplicand of the given width. */
  predicate RoomFor(width: nat, e: nat, k: Ending) {
    width + (if k == First then 5 else 3) <= e < width + 10
  }

  /** What a strip is for: with its ports wired to the multiplicand and to recoded digits, the
      outputs are worth four Booth rows, digit times multiplicand at weights 4, 16, 64 and 256.
      The strip also adds the negate bit of the row before it and leaves that of its last row to
      the strip after it; the ones that sign extension puts in come on top. */
  lemma {:induction false} StripMultiplies(blocks: seq<Block>, start: nat, plain: nat, k: Ending, y: Multiplicand, digits: seq<Digit>)
    requires start in {0, 2} && |digits| == 5 && RoomFor(|y.bits|, 8 + plain, k)
    requires Stable(blocks, Layout(start, plain, k), false) && StripWired(blocks, start, y, digits)
    requires blocks != [] && blocks[0].rows >= 8 - start
    requires forall w :: 0 <= w < 5 ==> !(digits[w].s && digits[w].d)
    ensures !CarryOut(blocks, false)
    ensures StripOutputs(blocks, start) + 256 * Bit(digits[4].n)
         == (4 * DigitValue(digits[1]) + 16 * DigitValue(digits[2]) + 64 * DigitValue(digits[3])
             + 256 * DigitValue(digits[4])) * MultiplicandValue(y)
            + (if start == 0 then Bit(digits[0].n) else 0)
            + Pow2(8 + plain) * EndOnes(k)
  {
    hide Stable, StripWired, StripOutputs, StripWeights, Layout, Ones, ColumnValues, CarryOut, Pow2,
      DigitValue, MultiplicandValue;
    var params := Layout(start, plain, k);
    LayoutConserves(blocks, start, plain, k);
    StripMeaning(blocks, params, start, false, y, digits);
    LayoutTop(start, plain, k);
    LayoutMeaning(y, digits, start, plain, k, |params|);
    LayoutRows(y, digits, start, plain, k);
    SumDigits(DigitValue(digits[1]), DigitValue(digits[2]), DigitValue(digits[3]), DigitValue(digits[4]),
              MultiplicandValue(y));
  }

  lemma LowBit(b: bool, p: nat)
    requires !b
    ensures p * Bit(b) == 0
  {
  }

  lemma LayoutRows(y: Multiplicand, digits: seq<Digit>, start: nat, plain: nat, k: Ending)
    requires start in {0, 2} && |digits| == 5 && RoomFor(|y.bits|, 8 + plain, k)
    requires forall w :: 0 <= w < 5 ==> !(digits[w].s && digits[w].d)
    ensures Below(y, digits, start, 8 + plain, k, 8 + plain + EndRows(k)) + 256 * Bit(digits[4].n)
         == 4 * (DigitValue(digits[1]) * MultiplicandValue(y)) + 16 * (DigitValue(digits[2]) * MultiplicandValue(y))
            + 64 * (DigitValue(digits[3]) * MultiplicandValue(y)) + 256 * (DigitValue(digits[4]) * MultiplicandValue(y))
            + (if start == 0 then Bit(digits[0].n) else 0)
  {
    hide SignedBelow, SignAt, EndRows, Negates, Pow2, DigitValue, MultiplicandValue, Bit, RoomFor;
    SmallPowers();
    LayoutRow(y, digits, 8 + plain, k, 0, 4);
    LayoutRow(y, digits, 8 + plain, k, 1, 16);
    LayoutRow(y, digits, 8 + plain, k, 2, 64);
    LayoutRow(y, digits, 8 + plain, k, 3, 256);
    NegatesValue(digits, start);
  }

  lemma LayoutRow(y: Multiplicand, digits: seq<Digit>, e: nat, k: Ending, w: nat, p: nat)
    requires p == Pow2(2 + 2 * w) && e >= 8 && |digits| == 5 && w < 4 && RoomFor(|y.bits|, e, k) && !(digits[w + 1].s && digits[w + 1].d)
    ensures SignedBelow(y, digits, w, e + SignAt(k, w), e + EndRows(k))
         == p * (DigitValue(digits[w + 1]) * MultiplicandValue(y)) - p * Bit(digits[w + 1].n)
  {
    hide SignedBelow, RowSigned, Pow2, DigitValue, MultiplicandValue;
    RowEnds(y, digits, w, e + SignAt(k, w), e + EndRows(k));
    RowValue(y, digits[w + 1], e + SignAt(k, w) - 2 - 2 * w);
    var negate: int := Bit(digits[w + 1].n);
    Distribute(DigitValue(digits[w + 1]) * MultiplicandValue(y), -negate, p);
  }

  lemma SumDigits(a: int, b: int, c: int, d: int, m: int)
    ensures (4 * a + 16 * b + 64 * c + 256 * d) * m == 4 * (a * m) + 16 * (b * m) + 64 * (c * m) + 256 * (d * m)
  {
  }

  /** The negate bits are in the first eight columns. */
  lemma {:induction false} LateNegates(blocks: seq<Block>, start: nat, plain: nat, k: Ending)
    requires start in {0, 2} && Stable(blocks, Layout(start, plain, k), false)
    requires blocks != [] && blocks[0].rows >= 8 - start
    ensures blocks[0].rows <= |Layout(start, plain, k)| && NoNegates(Layout(start, plain, k)[blocks[0].rows..])
  {
    hide RepStable, Layout;
    var params, r := Layout(start, plain, k), blocks[0].rows;
    forall i | 0 <= i < |params[r..]| ensures params[r..][i].above == 0 {
      LayoutParts(start, plain, k, 0);
      LayoutParts(start, plain, k, r + i);
    }
  }

  // ----- the top of a strip ------------------------------------------------

  /** The last two columns of a layout. */
  lemma LayoutTop(start: nat, plain: nat, k: Ending)
    requires start in {0, 2}
    ensures var params := Layout(start, plain, k);
            && |params| == 8 - start + plain + EndRows(k) && AddsLittle(params[|params| - 1])
            && (k == Eight ==> AddsLittle(params[|params| - 2]) && PickOf(params[|params| - 1], 3) == High)
  {
    hide Layout;
    LayoutParts(start, plain, k, 0);
    LayoutParts(start, plain, k, 8 - start + plain + EndRows(k) - 1);
    LayoutParts(start, plain, k, 8 - start + plain + EndRows(k) - 2);
  }

  lemma TopMacro(params: seq<Nibbles>)
    requires params != [] && AddsLittle(params[|params| - 1])
    ensures Choose(params) in {EndMacro, NotMacro}
  {
    hide AddsLittle, IsEnd;
    BusyTops(params);
  }

  lemma BusyTops(params: seq<Nibbles>)
    ensures IsBody(params) || IsCornice(params) ==> params != [] && !AddsLittle(params[|params| - 1])
  {
    ZeroNibbles(0);
  }

  /** A strip whose top column adds nothing for its first three rows carries nothing out, as the
      check on verify_zero demands. */
  lemma {:induction false} LastCarry(blocks: seq<Block>, params: seq<Nibbles>, carry: bool)
    requires Stable(blocks, params, carry) && params != [] && AddsLittle(params[|params| - 1])
    ensures !CarryOut(blocks, carry)
  {
    hide RepStable, AddsLittle, Choose;
    var b, r := blocks[0], blocks[0].rows;
    if r < |params| {
      assert params[r..][|params[r..]| - 1] == params[|params| - 1];
      LastCarry(blocks[1..], params[r..], b.v(ClO));
    } else {
      assert params[..r] == params;
      TopMacro(params);
      NoCarryOut(b.v, params, b.hard);
      assert params[r..] == [] && blocks[1..] == [];
    }
  }

  /** The carry output of the strip's top column. */
  function TopCarry(blocks: seq<Block>): bool {
    blocks != [] && (if |blocks| == 1 then blocks[0].rows > 0 && blocks[0].v(CO(blocks[0].rows - 1)) else TopCarry(blocks[1..]))
  }

  /** Where the vectors end with a lone one above a column that carries nothing, the top carry output is low. */
  lemma {:induction false} TopCarryLow(blocks: seq<Block>, params: seq<Nibbles>, carry: bool)
    requires Stable(blocks, params, carry) && |params| >= 1
    requires AddsLittle(params[|params| - 1]) && PickOf(params[|params| - 1], 3) == High
    requires if |params| >= 2 then AddsLittle(params[|params| - 2]) else !carry
    ensures !TopCarry(blocks)
  {
    hide RepStable, AddsLittle, Choose, PickOf;
    var b, r := blocks[0], blocks[0].rows;
    if r < |params| {
      var rest := params[r..];
      assert rest[|rest| - 1] == params[|params| - 1];
      if |rest| >= 2 {
        assert rest[|rest| - 2] == params[|params| - 2];
      } else {
        assert params[..r][r - 1] == params[|params| - 2];
        TopMacro(params[..r]);
        NoCarryOut(b.v, params[..r], b.hard);
      }
      TopCarryLow(blocks[1..], rest, b.v(ClO));
    } else {
      assert params[..r] == params && params[r..] == [] && blocks[1..] == [];
      TopMacro(params);
      BlockTopCarry(b.v, params, b.hard);
    }
  }

  lemma BlockTopCarry(v: Valuation, params: seq<Nibbles>, hard: bool)
    requires |params| >= 1 && RepStable(v, params, hard) && Choose(params) in {EndMacro, NotMacro}
    requires AddsLittle(params[|params| - 1]) && PickOf(params[|params| - 1], 3) == High
    requires if |params| >= 2 then AddsLittle(params[|params| - 2]) else !v(CrI)
    ensures !v(CO(|params| - 1))
  {
    hide Satisfies, IsBody, IsCornice, SoftColumn;
    var n := |params|;
    if hard && Choose(params) == EndMacro {
      EndTopCarry(v, params);
    } else {
      SoftTopCarry(v, params);
    }
  }

  lemma EndTopCarry(v: Valuation, params: seq<Nibbles>)
    requires IsEnd(params) && Satisfies(v, End(|params|))
    ensures !v(CO(|params| - 1))
  {
    hide Satisfies, EndRow;
    var n := |params|;
    EndRowSatisfied(v, n - 1, n);
    TopEndCell(v, n - 1);
  }

  lemma TopEndCell(v: Valuation, pos: nat)
    requires pos in {6, 7} && Satisfies(v, EndRow(pos))
    ensures !v(CO(pos))
  {
    hide EndNear, EndFar, SdnBit;
    TopCell(pos);
    assert EndRow(pos)[0] == EndNear(pos)[0];
    assert Holds(v, EndRow(pos)[0]);
  }

  lemma TopCell(pos: nat)
    requires pos in {6, 7}
    ensures EndNear(pos) != [] && EndNear(pos)[0] == Assign(CO(pos), Tie(false))
  {
    hide SdnBit;
  }

  lemma SoftTopCarry(v: Valuation, params: seq<Nibbles>)
    requires |params| >= 1
    requires forall pos :: 0 <= pos < |params| ==> SoftColumn(v, pos, |params|, params[pos])
    requires AddsLittle(params[|params| - 1]) && PickOf(params[|params| - 1], 3) == High
    requires if |params| >= 2 then AddsLittle(params[|params| - 2]) else !v(CrI)
    ensures !v(CO(|params| - 1))
  {
    hide PickOf, SoftColumn;
    var n := |params|;
    assert SoftColumn(v, n - 1, n, params[n - 1]);
    SoftUpper(v, n - 1, n, params[n - 1]);
    if n >= 2 {
      SoftUpper(v, n - 2, n, params[n - 2]);
    }
    SoftTopCell(v, n - 1, n, params[n - 1]);
  }

  lemma SoftUpper(v: Valuation, pos: nat, rows: nat, p: Nibbles)
    requires SoftColumn(v, pos, rows, p) && AddsLittle(p)
    ensures !v(S0(pos)) && !v(CarryInto(pos + 1, rows))
  {
    hide PickOf, CarryInto;
    assert v(Pp(pos, 0)) == DotVal(v, pos, p, 0) && v(Pp(pos, 1)) == DotVal(v, pos, p, 1) && v(Pp(pos, 2)) == DotVal(v, pos, p, 2);
  }

  lemma SoftTopCell(v: Valuation, pos: nat, rows: nat, p: Nibbles)
    requires SoftColumn(v, pos, rows, p) && !v(S0(pos)) && !v(CarryInto(pos, rows))
    ensures !v(CO(pos))
  {
    hide PickOf, CarryInto, DotVal;
  }

  // ----- stable strips exist -----------------------------------------------

  /** The ports of a block whose first column is column, wired to the digits and the multiplicand. */
  function PortsAt(column: nat, carry: bool, y: Multiplicand, digits: seq<Digit>): Valuation
    requires |digits| == 5
  {
    (w: Wire) => match w
      case CrI => carry
      case Sdn(i) => DigitBit(digits, i)
      case Yvec(i) => YAt(y, column + YOffset(i))
      case _ => false
  }

  /** What a flattened index of SDN_i, and one of y_vec_i, stands for. */
  function DigitBit(digits: seq<Digit>, i: nat): bool {
    var w := i / 3;
    w < |digits| && (if i % 3 == 0 then digits[w].n else if i % 3 == 1 then digits[w].d else digits[w].s)
  }

  function YOffset(i: nat): int {
    i / 8 - 2 * (i / 2 % 4) - (if i % 2 == 1 then 2 else 3)
  }

  lemma PortsWired(v: Valuation, column: nat, carry: bool, rows: nat, y: Multiplicand, digits: seq<Digit>)
    requires |digits| == 5 && SamePorts(v, PortsAt(column, carry, y, digits))
    ensures Wired(v, column, rows, y, digits) && v(CrI) == carry
  {
    hide YAt, SdnBit, YBit;
    forall pos, w | 0 <= pos < rows && 0 <= w < 4
      ensures v(YBit(pos, w, 1)) == YAt(y, column + pos - 2 * w - 2) && v(YBit(pos, w, 0)) == YAt(y, column + pos - 2 * w - 3)
    {
      YPorts(v, column, carry, y, digits, pos, w);
    }
    forall w | 0 <= w < 5
      ensures v(SdnBit(w, 0)) == digits[w].n && v(SdnBit(w, 1)) == digits[w].d && v(SdnBit(w, 2)) == digits[w].s
    {
      DigitPorts(v, column, carry, y, digits, w);
    }
  }

  lemma YPorts(v: Valuation, column: nat, carry: bool, y: Multiplicand, digits: seq<Digit>, pos: nat, w: nat)
    requires |digits| == 5 && SamePorts(v, PortsAt(column, carry, y, digits)) && w < 4
    ensures v(YBit(pos, w, 1)) == YAt(y, column + pos - 2 * w - 2) && v(YBit(pos, w, 0)) == YAt(y, column + pos - 2 * w - 3)
  {
    hide YAt, YOffset, DigitBit;
    var i := 2 * (pos * 4 + w);
    YIndex(pos, w);
    assert v(Yvec(i)) == PortsAt(column, carry, y, digits)(Yvec(i));
    assert v(Yvec(i + 1)) == PortsAt(column, carry, y, digits)(Yvec(i + 1));
  }

  lemma DigitPorts(v: Valuation, column: nat, carry: bool, y: Multiplicand, digits: seq<Digit>, w: nat)
    requires |digits| == 5 && SamePorts(v, PortsAt(column, carry, y, digits)) && w < 5
    ensures v(SdnBit(w, 0)) == digits[w].n && v(SdnBit(w, 1)) == digits[w].d && v(SdnBit(w, 2)) == digits[w].s
  {
    hide YAt, YOffset, DigitBit;
    var i, ports := w * 3, PortsAt(column, carry, y, digits);
    DigitIndex(digits, w);
    assert v(Sdn(i)) == ports(Sdn(i)) && v(Sdn(i + 1)) == ports(Sdn(i + 1)) && v(Sdn(i + 2)) == ports(Sdn(i + 2));
  }

  lemma DigitIndex(digits: seq<Digit>, w: nat)
    requires w < |digits|
    ensures DigitBit(digits, w * 3) == digits[w].n && DigitBit(digits, w * 3 + 1) == digits[w].d
    ensures DigitBit(digits, w * 3 + 2) == digits[w].s
  {
    assert w * 3 / 3 == w && (w * 3 + 1) / 3 == w && (w * 3 + 2) / 3 == w;
  }

  lemma YIndex(pos: nat, w: nat)
    requires w < 4
    ensures YOffset(2 * (pos * 4 + w)) == pos - 2 * w - 3 && YOffset(2 * (pos * 4 + w) + 1) == pos - 2 * w - 2
  {
    var i := 2 * (pos * 4 + w);
    assert i / 2 == pos * 4 + w && (i + 1) / 2 == pos * 4 + w;
    assert i / 8 == pos && (i + 1) / 8 == pos;
  }

  function Sum(heights: seq<nat>): nat {
    if heights == [] then 0 else heights[0] + Sum(heights[1..])
  }

  predicate Heights(blocks: seq<Block>, heights: seq<nat>, hard: bool) {
    |blocks| == |heights| && forall i :: 0 <= i < |blocks| ==> blocks[i].rows == heights[i] && blocks[i].hard == hard
  }

  /** For every multiplicand, digits, parameter vectors and division into blocks, with or without
      hardened macros, there is a stable strip wired to them. */
  lemma {:induction false} StripSettles(params: seq<Nibbles>, heights: seq<nat>, hard: bool, base: nat, carry: bool,
                                        y: Multiplicand, digits: seq<Digit>) returns (blocks: seq<Block>)
    requires |digits| == 5 && Sum(heights) == |params| && forall i :: 0 <= i < |heights| ==> heights[i] > 0
    ensures Stable(blocks, params, carry) && StripWired(blocks, base, y, digits) && Heights(blocks, heights, hard)
  {
    hide RepStable, Wired, SamePorts, PortsAt;
    if heights == [] {
      blocks := [];
    } else {
      var r := heights[0];
      var v := RepSettles(PortsAt(base, carry, y, digits), params[..r], hard);
      PortsWired(v, base, carry, r, y, digits);
      var rest := StripSettles(params[r..], heights[1..], hard, base + r, v(ClO), y, digits);
      blocks := [Block(v, r, hard)] + rest;
      assert blocks[1..] == rest;
    }
  }
}
