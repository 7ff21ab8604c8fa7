/** bsg_mul_booth_4_block_rep: a block of columns described by four parameter vectors, built either
    from one hardened macro, where the vectors match one, or from general columns. */
module BoothRep {
  import opened Powers
  import opened Netlist
  import opened BoothBlocks

  /** One column's four-bit share of S_above_vec_p, dot_bar_vec_p, B_vec_p and one_vec_p. */
  datatype Nibbles = Nibbles(above: nat, bar: nat, b: nat, one: nat)

  function Has(nibble: nat, i: nat): bool {
    match i
    case 0 => nibble % 2 == 1
    case 1 => nibble / 2 % 2 == 1
    case 2 => nibble / 4 % 2 == 1
    case _ => nibble / 8 % 2 == 1
  }

  /** What a column adds for one row. */
  datatype Pick = NegateBit | Barred | Low | High | Plain

  /** The generate conditions of bsg_mul_booth_4_block, in their order of priority. */
  function PickOf(p: Nibbles, i: nat): Pick {
    if Has(p.above, i) then NegateBit
    else if Has(p.bar, i) then Barred
    else if Has(p.b, i) then Low
    else if Has(p.one, i) then High
    else Plain
  }

  /** dot_vals[i] of the column at pos. */
  function DotVal(v: Valuation, pos: nat, p: Nibbles, i: nat): bool {
    match PickOf(p, i)
    case NegateBit => v(SdnBit(i, 0))
    case Barred => !DotAt(v, pos, i)
    case Low => false
    case High => true
    case Plain => DotAt(v, pos, i)
  }

  /** bsg_mul_booth_4_block: the four bits and a 4:2 compressor. */
  predicate SoftColumn(v: Valuation, pos: nat, rows: nat, p: Nibbles) {
    && (forall i :: 0 <= i < 4 ==> v(Pp(pos, i)) == DotVal(v, pos, p, i))
    && Holds(v, Addf(Pp(pos, 0), Pp(pos, 1), Pp(pos, 2), S0(pos), CarryInto(pos + 1, rows)))
    && Holds(v, Addf(Pp(pos, 3), S0(pos), CarryInto(pos, rows), SO(pos), CO(pos)))
  }

  datatype Macro = BodyMacro | CorniceMacro | EndMacro | NotMacro

  /** The parameter vectors of the hardened blocks, lowest column first; a body block's are all zero. */
  const Zero := Nibbles(0, 0, 0, 0)
  const Cornice8 := [Nibbles(1, 0, 14, 0), Nibbles(0, 0, 15, 0)] + Cornice6
  const Cornice6 := [Nibbles(2, 0, 12, 0), Nibbles(0, 0, 14, 0), Nibbles(4, 0, 8, 0),
                     Nibbles(0, 0, 12, 0), Nibbles(8, 0, 0, 0), Nibbles(0, 0, 8, 0)]
  const End7 := [Nibbles(0, 1, 0, 0), Nibbles(0, 0, 0, 1), Nibbles(0, 2, 1, 0), Nibbles(0, 0, 1, 2),
                 Nibbles(0, 4, 3, 0), Nibbles(0, 0, 3, 4), Nibbles(0, 8, 7, 0)]
  const End8 := End7 + [Nibbles(0, 0, 7, 8)]

  /** The end of the first strip, which no macro matches: its first two rows end in one column. */
  const FirstEnd := [Nibbles(0, 3, 0, 0), Nibbles(0, 0, 1, 2), Nibbles(0, 4, 3, 0),
                     Nibbles(0, 0, 3, 4), Nibbles(0, 8, 7, 0), Nibbles(0, 0, 7, 8)]

  predicate IsBody(params: seq<Nibbles>) {
    5 <= |params| <= 8 && forall i :: 0 <= i < |params| ==> params[i] == Zero
  }

  predicate IsCornice(params: seq<Nibbles>) {
    params == Cornice8 || params == Cornice6
  }

  predicate IsEnd(params: seq<Nibbles>) {
    params == End7 || params == End8
  }

  /** The chain of bsg_mul_booth_gen_macro conditions. */
  function Choose(params: seq<Nibbles>): Macro {
    if IsBody(params) then BodyMacro
    else if IsCornice(params) then CorniceMacro
    else if IsEnd(params) then EndMacro
    else NotMacro
  }

  /** A stable state of the block, in a hardened build or in one without macros. */
  predicate RepStable(v: Valuation, params: seq<Nibbles>, hard: bool) {
    var n := |params|;
    match if hard then Choose(params) else NotMacro
    case BodyMacro => Satisfies(v, Body(n, n))
    case CorniceMacro => n in {6, 8} && Satisfies(v, Cornice(n, 8 - n))
    case EndMacro => Satisfies(v, End(n))
    case NotMacro => forall pos :: 0 <= pos < n ==> SoftColumn(v, pos, n, params[pos])
  }

  // ----- what the vectors say ----------------------------------------------

  /** At a low end, column c (of the full cornice) has row i's predecessor's negate bit at 2i, and
      row i's dots from column 2i + 2 on. */
  function CornicePick(c: nat, i: nat): Pick {
    if c == 2 * i then NegateBit else if c < 2 * i + 2 then Low else Plain
  }

  lemma CorniceNibbles(params: seq<Nibbles>, pos: nat, i: nat)
    requires IsCornice(params) && pos < |params| && i < 4
    ensures PickOf(params[pos], i) == CornicePick(8 - |params| + pos, i)
  {
    if |params| == 8 {
      assert params[pos] == [Nibbles(1, 0, 14, 0), Nibbles(0, 0, 15, 0), Nibbles(2, 0, 12, 0), Nibbles(0, 0, 14, 0),
                             Nibbles(4, 0, 8, 0), Nibbles(0, 0, 12, 0), Nibbles(8, 0, 0, 0), Nibbles(0, 0, 8, 0)][pos];
    } else {
      assert params[pos] == Cornice6[pos];
    }
  }

  /** At a high end, a row's dots run up to its sign column, barred there, and a one may follow. */
  function EndPick(sign: nat, one: bool, pos: nat): Pick {
    if pos < sign then Plain else if pos == sign then Barred else if one && pos == sign + 1 then High else Low
  }

  lemma EndNibbles(params: seq<Nibbles>, pos: nat, i: nat)
    requires IsEnd(params) && pos < |params| && i < 4
    ensures PickOf(params[pos], i) == EndPick(2 * i, true, pos)
  {
    var p := params[pos];
    if pos < 7 {
      assert p == End7[pos];
    } else {
      assert p == Nibbles(0, 0, 7, 8);
    }
  }

  lemma FirstEndNibbles(pos: nat, i: nat)
    requires pos < 6 && i < 4
    ensures PickOf(FirstEnd[pos], i) == EndPick(if i == 0 then 0 else 2 * i - 2, i > 0, pos)
  {
  }

  // ----- what a block conserves --------------------------------------------

  /** What one bit contributes, a barred dot counted as a sign; the ones come on top. */
  function PickWeight(p: Pick, negate: bool, dot: bool): int {
    match p
    case NegateBit => Bit(negate)
    case Barred => Sign(dot)
    case Low => 0
    case High => 0
    case Plain => Bit(dot)
  }

  function PickOne(p: Pick): nat {
    if p == Barred || p == High then 1 else 0
  }

  function Weight(v: Valuation, pos: nat, p: Nibbles, i: nat): int {
    PickWeight(PickOf(p, i), v(SdnBit(i, 0)), DotAt(v, pos, i))
  }

  function ColumnWeight(v: Valuation, pos: nat, p: Nibbles): int {
    Weight(v, pos, p, 0) + Weight(v, pos, p, 1) + Weight(v, pos, p, 2) + Weight(v, pos, p, 3)
  }

  function ColumnOnes(p: Nibbles): nat {
    PickOne(PickOf(p, 0)) + PickOne(PickOf(p, 1)) + PickOne(PickOf(p, 2)) + PickOne(PickOf(p, 3))
  }

  function Weights(v: Valuation, params: seq<Nibbles>, k: nat): int
    requires k <= |params|
  {
    if k == 0 then 0 else Weights(v, params, k - 1) + Pow2(k - 1) * ColumnWeight(v, k - 1, params[k - 1])
  }

  function Ones(params: seq<Nibbles>, k: nat): nat
    requires k <= |params|
  {
    if k == 0 then 0 else Ones(params, k - 1) + Pow2(k - 1) * ColumnOnes(params[k - 1])
  }

  lemma SoftBit(v: Valuation, pos: nat, p: Nibbles, i: nat)
    ensures Bit(DotVal(v, pos, p, i)) == Weight(v, pos, p, i) + PickOne(PickOf(p, i))
  {
    hide PickOf, DotAt;
  }

  lemma SoftColumnConserves(v: Valuation, pos: nat, rows: nat, p: Nibbles)
    requires SoftColumn(v, pos, rows, p)
    ensures Num(v, SO(pos)) + 2 * Num(v, CO(pos)) + 2 * Num(v, CarryInto(pos + 1, rows))
         == ColumnWeight(v, pos, p) + ColumnOnes(p) + Num(v, CarryInto(pos, rows))
  {
    hide Holds, DotVal, Weight, PickOf, PickOne, CarryInto;
    FullAdder(v, Pp(pos, 0), Pp(pos, 1), Pp(pos, 2), S0(pos), CarryInto(pos + 1, rows));
    FullAdder(v, Pp(pos, 3), S0(pos), CarryInto(pos, rows), SO(pos), CO(pos));
    SoftBit(v, pos, p, 0);
    SoftBit(v, pos, p, 1);
    SoftBit(v, pos, p, 2);
    SoftBit(v, pos, p, 3);
  }

  lemma {:induction false} SoftConserves(v: Valuation, params: seq<Nibbles>, k: nat)
    requires k <= |params|
    requires forall pos :: 0 <= pos < |params| ==> SoftColumn(v, pos, |params|, params[pos])
    ensures Outputs(v, k) + Pow2(k) * Num(v, CarryInto(k, |params|)) == Weights(v, params, k) + Ones(params, k) + Num(v, CrI)
  {
    hide SoftColumn, ColumnWeight, ColumnOnes, Num;
    if k > 0 {
      SoftConserves(v, params, k - 1);
      SoftColumnConserves(v, k - 1, |params|, params[k - 1]);
      RepStep(Pow2(k - 1), Num(v, SO(k - 1)) + 2 * Num(v, CO(k - 1)), Num(v, CarryInto(k, |params|)),
              ColumnWeight(v, k - 1, params[k - 1]), ColumnOnes(params[k - 1]), Num(v, CarryInto(k - 1, |params|)));
    }
  }

  lemma RepStep(p: nat, out: nat, carryOut: nat, weight: int, ones: nat, carryIn: nat)
    requires out + 2 * carryOut == weight + ones + carryIn
    ensures p * out + 2 * p * carryOut == p * weight + p * ones + p * carryIn
  {
    Distribute(out, 2 * carryOut, p);
    Distribute(weight + ones, carryIn, p);
    Distribute(weight, ones, p);
  }

  lemma {:induction false} BodyWeights(v: Valuation, params: seq<Nibbles>, k: nat)
    requires k <= |params| && IsBody(params)
    ensures Weights(v, params, k) == Columns(v, k) && Ones(params, k) == 0
  {
    hide ColumnWeight, ColumnOnes, Column, Pow2;
    if k > 0 {
      BodyWeights(v, params, k - 1);
      ZeroColumn(v, k - 1);
    }
  }

  lemma ZeroColumn(v: Valuation, pos: nat)
    ensures ColumnWeight(v, pos, Zero) == Column(v, pos) && ColumnOnes(Zero) == 0
  {
    hide DotAt;
  }

  lemma {:induction false} CorniceWeights(v: Valuation, params: seq<Nibbles>, k: nat)
    requires IsCornice(params)
    requires k <= |params|
    ensures |params| in {6, 8} && Weights(v, params, k) == CorniceColumns(v, k, 8 - |params|) && Ones(params, k) == 0
  {
    hide ColumnWeight, ColumnOnes, CorniceColumn, Pow2, IsCornice;
    MacroHeights(params);
    if k > 0 {
      CorniceWeights(v, params, k - 1);
      CorniceColumnWeight(v, params, k - 1);
    }
  }

  /** What row i adds in a cornice column. */
  function CorniceTerm(v: Valuation, pos: nat, c: nat, i: nat): nat {
    if c == 2 * i then Num(v, SdnBit(i, 0)) else if c < 2 * i + 2 then 0 else Bit(DotAt(v, pos, i))
  }

  lemma CorniceCell(v: Valuation, params: seq<Nibbles>, pos: nat, i: nat)
    requires IsCornice(params) && pos < |params| && i < 4
    ensures |params| in {6, 8} && Weight(v, pos, params[pos], i) == CorniceTerm(v, pos, 8 - |params| + pos, i)
    ensures PickOne(PickOf(params[pos], i)) == 0
  {
    hide DotAt, PickOf, IsCornice, SdnBit;
    MacroHeights(params);
    CorniceNibbles(params, pos, i);
  }

  lemma CorniceTerms(v: Valuation, pos: nat, c: nat)
    requires c < 8
    ensures CorniceColumn(v, pos, c)
         == CorniceTerm(v, pos, c, 0) + CorniceTerm(v, pos, c, 1) + CorniceTerm(v, pos, c, 2) + CorniceTerm(v, pos, c, 3)
  {
    hide DotAt, SdnBit, Num, Bit;
  }

  lemma CorniceColumnWeight(v: Valuation, params: seq<Nibbles>, pos: nat)
    requires IsCornice(params)
    requires pos < |params|
    ensures |params| in {6, 8}
    ensures ColumnWeight(v, pos, params[pos]) == CorniceColumn(v, pos, 8 - |params| + pos) && ColumnOnes(params[pos]) == 0
  {
    hide Weight, PickOne, PickOf, IsCornice, CorniceTerm, CorniceColumn;
    CorniceCell(v, params, pos, 0);
    CorniceCell(v, params, pos, 1);
    CorniceCell(v, params, pos, 2);
    CorniceCell(v, params, pos, 3);
    CorniceTerms(v, pos, 8 - |params| + pos);
  }

  lemma {:induction false} EndWeights(v: Valuation, params: seq<Nibbles>, k: nat)
    requires IsEnd(params)
    requires k <= |params|
    ensures Weights(v, params, k) == EndColumns(v, k) && Ones(params, k) == Pow2(k) - 1
  {
    hide ColumnWeight, ColumnOnes, EndColumn, IsEnd;
    if k > 0 {
      EndWeights(v, params, k - 1);
      EndColumnWeight(v, params, k - 1);
    }
  }

  lemma EndColumnWeight(v: Valuation, params: seq<Nibbles>, pos: nat)
    requires IsEnd(params)
    requires pos < |params|
    ensures ColumnWeight(v, pos, params[pos]) == EndColumn(v, pos) && ColumnOnes(params[pos]) == 1
  {
    hide DotAt, PickOf, IsEnd;
    MacroHeights(params);
    EndNibbles(params, pos, 0);
    EndNibbles(params, pos, 1);
    EndNibbles(params, pos, 2);
    EndNibbles(params, pos, 3);
  }

  /** Whether macro or general columns, a block conserves what its vectors describe: a hardened
      macro stands in for the columns it replaces. Cornices have no cr_i, so they go first. */
  lemma RepConserves(v: Valuation, params: seq<Nibbles>, hard: bool)
    requires params != [] && RepStable(v, params, hard)
    requires Choose(params) == CorniceMacro ==> !v(CrI)
    ensures Outputs(v, |params|) + Pow2(|params|) * Num(v, ClO)
         == Weights(v, params, |params|) + Ones(params, |params|) + Num(v, CrI)
  {
    hide Outputs, Weights, Ones, Pow2, Num, IsBody, IsCornice, IsEnd, RepStable;
    MacroHeights(params);
    match if hard then Choose(params) else NotMacro
    case BodyMacro => BodyMacroConserves(v, params);
    case CorniceMacro => CorniceMacroConserves(v, params);
    case EndMacro => EndMacroConserves(v, params);
    case NotMacro => SoftBlockConserves(v, params, hard);
  }

  /** Which netlist a hardened block is. */
  lemma MacroNetlist(v: Valuation, params: seq<Nibbles>)
    requires RepStable(v, params, true)
    ensures IsBody(params) ==> Satisfies(v, Body(|params|, |params|))
    ensures IsCornice(params) ==> |params| in {6, 8} && Satisfies(v, Cornice(|params|, 8 - |params|))
    ensures IsEnd(params) ==> |params| in {7, 8} && Satisfies(v, End(|params|))
  {
    hide Satisfies, Body, Cornice, End, SoftColumn, IsBody, IsCornice, IsEnd;
    MacroHeights(params);
  }

  lemma BodyMacroConserves(v: Valuation, params: seq<Nibbles>)
    requires params != [] && IsBody(params) && RepStable(v, params, true)
    ensures Outputs(v, |params|) + Pow2(|params|) * Num(v, ClO)
         == Weights(v, params, |params|) + Ones(params, |params|) + Num(v, CrI)
  {
    hide Outputs, Weights, Ones, Pow2, Satisfies, Num, IsBody, IsCornice, IsEnd, RepStable, Body, Cornice, End;
    MacroNetlist(v, params);
    BodyConserves(v, |params|, |params|);
    assert CarryInto(|params|, |params|) == ClO;
    BodyWeights(v, params, |params|);
  }

  lemma CorniceMacroConserves(v: Valuation, params: seq<Nibbles>)
    requires IsCornice(params) && RepStable(v, params, true) && !v(CrI)
    ensures Outputs(v, |params|) + Pow2(|params|) * Num(v, ClO)
         == Weights(v, params, |params|) + Ones(params, |params|) + Num(v, CrI)
  {
    hide Outputs, Weights, Ones, Pow2, Satisfies, Num, IsBody, IsCornice, IsEnd, RepStable, Body, Cornice, End;
    MacroNetlist(v, params);
    CorniceConserves(v, 8 - |params|);
    CorniceWeights(v, params, |params|);
    LowNum(v, CrI);
  }

  lemma EndMacroConserves(v: Valuation, params: seq<Nibbles>)
    requires IsEnd(params) && RepStable(v, params, true)
    ensures !v(ClO)
    ensures Outputs(v, |params|) + Pow2(|params|) * Num(v, ClO)
         == Weights(v, params, |params|) + Ones(params, |params|) + Num(v, CrI)
  {
    hide Outputs, Weights, Ones, Pow2, Satisfies, Num, IsBody, IsCornice, IsEnd, RepStable, Body, Cornice, End;
    MacroNetlist(v, params);
    EndConserves(v, |params|);
    EndWeights(v, params, |params|);
    LowNum(v, ClO);
  }

  lemma SoftBlockConserves(v: Valuation, params: seq<Nibbles>, hard: bool)
    requires params != [] && RepStable(v, params, hard) && (hard ==> Choose(params) == NotMacro)
    ensures Outputs(v, |params|) + Pow2(|params|) * Num(v, ClO)
         == Weights(v, params, |params|) + Ones(params, |params|) + Num(v, CrI)
  {
    hide Outputs, Weights, Ones, Pow2, SoftColumn, Num, Choose;
    SoftConserves(v, params, |params|);
    assert CarryInto(|params|, |params|) == ClO;
  }

  lemma MacroHeights(params: seq<Nibbles>)
    ensures IsCornice(params) ==> |params| in {6, 8} && !IsEnd(params) && !IsBody(params)
    ensures IsEnd(params) ==> |params| in {7, 8} && !IsBody(params)
  {
    if IsEnd(params) || IsCornice(params) {
      assert params[0] != Zero;
    }
  }

  lemma LowNum(v: Valuation, w: Wire)
    requires !v(w)
    ensures Num(v, w) == 0
  {
  }

  // ----- the end of a strip ------------------------------------------------

  predicate AddsLittle(p: Nibbles) {
    PickOf(p, 0) == Low && PickOf(p, 1) == Low && PickOf(p, 2) == Low
  }

  /** A top column that adds nothing for its first three rows has no intermediate carry out, which
      is what the simulation-time check on verify_zero asks. */
  lemma NoCarryOut(v: Valuation, params: seq<Nibbles>, hard: bool)
    requires params != [] && RepStable(v, params, hard)
    requires AddsLittle(params[|params| - 1])
    requires hard ==> Choose(params) in {EndMacro, NotMacro}
    ensures !v(ClO)
  {
    hide IsBody, IsCornice, IsEnd, SoftColumn, Satisfies;
    if hard && Choose(params) == EndMacro {
      EndMacroConserves(v, params);
    } else {
      SoftTop(v, |params| - 1, |params|, params[|params| - 1]);
    }
  }

  lemma SoftTop(v: Valuation, pos: nat, rows: nat, p: Nibbles)
    requires rows == pos + 1 && SoftColumn(v, pos, rows, p)
    requires AddsLittle(p)
    ensures !v(ClO)
  {
    hide PickOf;
    assert v(Pp(pos, 0)) == DotVal(v, pos, p, 0) && v(Pp(pos, 1)) == DotVal(v, pos, p, 1);
    assert CarryInto(pos + 1, rows) == ClO;
  }

  // ----- stable states exist -----------------------------------------------

  ghost predicate SamePorts(v: Valuation, ports: Valuation) {
    v(CrI) == ports(CrI) && forall i: nat :: v(Sdn(i)) == ports(Sdn(i)) && v(Yvec(i)) == ports(Yvec(i))
  }

  function SoftVal(ports: Valuation, params: seq<Nibbles>, pos: nat, i: nat): bool {
    pos < |params| && DotVal(ports, pos, params[pos], i)
  }

  function SoftSum(ports: Valuation, params: seq<Nibbles>, pos: nat): bool {
    Sum3(SoftVal(ports, params, pos, 0), SoftVal(ports, params, pos, 1), SoftVal(ports, params, pos, 2))
  }

  function SoftCarry(ports: Valuation, params: seq<Nibbles>, pos: nat): bool {
    Carry3(SoftVal(ports, params, pos, 0), SoftVal(ports, params, pos, 1), SoftVal(ports, params, pos, 2))
  }

  function SoftCarryIn(ports: Valuation, params: seq<Nibbles>, pos: nat): bool {
    if pos == 0 then ports(CrI) else SoftCarry(ports, params, pos - 1)
  }

  /** The state a block of general columns settles in. */
  function SoftSettled(ports: Valuation, params: seq<Nibbles>): Valuation {
    (w: Wire) => match w
      case Tie(level) => level
      case Pp(pos, i) => SoftVal(ports, params, pos, i)
      case S0(pos) => SoftSum(ports, params, pos)
      case Cl(pos) => SoftCarry(ports, params, pos)
      case ClO => params != [] && SoftCarry(ports, params, |params| - 1)
      case SO(pos) => Sum3(SoftVal(ports, params, pos, 3), SoftSum(ports, params, pos), SoftCarryIn(ports, params, pos))
      case CO(pos) => Carry3(SoftVal(ports, params, pos, 3), SoftSum(ports, params, pos), SoftCarryIn(ports, params, pos))
      case _ => ports(w)
  }

  lemma SoftWires(ports: Valuation, params: seq<Nibbles>, pos: nat)
    requires pos < |params|
    ensures var v := SoftSettled(ports, params);
            && SamePorts(v, ports)
            && (forall i: nat :: v(Pp(pos, i)) == SoftVal(ports, params, pos, i))
            && v(S0(pos)) == SoftSum(ports, params, pos)
            && v(CarryInto(pos + 1, |params|)) == SoftCarry(ports, params, pos)
            && v(CarryInto(pos, |params|)) == SoftCarryIn(ports, params, pos)
            && v(SO(pos)) == Sum3(SoftVal(ports, params, pos, 3), SoftSum(ports, params, pos), SoftCarryIn(ports, params, pos))
            && v(CO(pos)) == Carry3(SoftVal(ports, params, pos, 3), SoftSum(ports, params, pos), SoftCarryIn(ports, params, pos))
  {
    hide SoftVal, SoftSum, SoftCarry, Sum3, Carry3;
  }

  lemma SamePortsDotVal(v: Valuation, ports: Valuation, pos: nat, p: Nibbles, i: nat)
    requires SamePorts(v, ports)
    ensures DotVal(v, pos, p, i) == DotVal(ports, pos, p, i)
  {
    hide PickOf, Dot;
  }

  lemma SoftColumnSettles(ports: Valuation, params: seq<Nibbles>, pos: nat)
    requires pos < |params|
    ensures SoftColumn(SoftSettled(ports, params), pos, |params|, params[pos])
  {
    hide SoftSettled, DotVal, CarryInto, Sum3, Carry3, SamePorts;
    var v := SoftSettled(ports, params);
    SoftWires(ports, params, pos);
    SamePortsDotVal(v, ports, pos, params[pos], 0);
    SamePortsDotVal(v, ports, pos, params[pos], 1);
    SamePortsDotVal(v, ports, pos, params[pos], 2);
    SamePortsDotVal(v, ports, pos, params[pos], 3);
  }

  lemma SettledPorts(ports: Valuation, params: seq<Nibbles>, n: nat)
    ensures SamePorts(Settled(ports, n), ports)
    ensures SamePorts(CorniceSettled(ports, n), ports)
    ensures SamePorts(EndSettled(ports), ports)
    ensures SamePorts(SoftSettled(ports, params), ports)
  {
    hide DotAt, Sum3, Carry3;
  }

  lemma BodyRepSettles(ports: Valuation, params: seq<Nibbles>)
    requires Choose(params) == BodyMacro
    ensures RepStable(Settled(ports, |params|), params, true)
  {
    hide Choose, Satisfies, Body, Settled;
    BodySettles(ports, |params|, |params|);
  }

  lemma CorniceRepSettles(ports: Valuation, params: seq<Nibbles>)
    requires Choose(params) == CorniceMacro
    ensures |params| in {6, 8} && RepStable(CorniceSettled(ports, 8 - |params|), params, true)
  {
    hide IsBody, IsCornice, IsEnd, Satisfies, Cornice, CorniceSettled;
    MacroHeights(params);
    CorniceSettles(ports, |params|, 8 - |params|);
  }

  lemma EndRepSettles(ports: Valuation, params: seq<Nibbles>)
    requires Choose(params) == EndMacro
    ensures RepStable(EndSettled(ports), params, true)
  {
    hide IsBody, IsCornice, IsEnd, Satisfies, End, EndSettled;
    MacroHeights(params);
    EndSettles(ports, |params|);
  }

  lemma SoftRepSettles(ports: Valuation, params: seq<Nibbles>, hard: bool)
    requires hard ==> Choose(params) == NotMacro
    ensures RepStable(SoftSettled(ports, params), params, hard)
  {
    hide Choose, SoftColumn, SoftSettled;
    forall pos | 0 <= pos < |params| ensures SoftColumn(SoftSettled(ports, params), pos, |params|, params[pos]) {
      SoftColumnSettles(ports, params, pos);
    }
  }

  /** Every block has a stable state for every value of its ports. */
  lemma RepSettles(ports: Valuation, params: seq<Nibbles>, hard: bool) returns (v: Valuation)
    ensures RepStable(v, params, hard) && SamePorts(v, ports)
  {
    hide Choose, Settled, CorniceSettled, EndSettled, SoftSettled, RepStable, SamePorts;
    match if hard then Choose(params) else NotMacro
    case BodyMacro =>
      BodyRepSettles(ports, params);
      SettledPorts(ports, params, |params|);
      v := Settled(ports, |params|);
    case CorniceMacro =>
      CorniceRepSettles(ports, params);
      SettledPorts(ports, params, 8 - |params|);
      v := CorniceSettled(ports, 8 - |params|);
    case EndMacro =>
      EndRepSettles(ports, params);
      SettledPorts(ports, params, 0);
      v := EndSettled(ports);
    case NotMacro =>
      SoftRepSettles(ports, params, hard);
      SettledPorts(ports, params, 0);
      v := SoftSettled(ports, params);
  }
}
