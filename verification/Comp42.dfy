/** The 4:2 compressor column generator. */
module Comp42 {
  import opened Powers
  import opened Netlist
  import opened BoothBlocks

  /** i[word][bit], flattened as the generator does. */
  function InBit(word: nat, bit: nat, rows: nat): Wire {
    In(word * rows + bit)
  }

  function CompRow(pos: nat, rows: nat): seq<Gate> {
    [ Addf(InBit(3, pos, rows), InBit(2, pos, rows), InBit(1, pos, rows), S0(pos),
           if pos == rows - 1 then ClO else Cl(pos)),
      Addf(InBit(0, pos, rows), S0(pos), if pos > 0 then Cl(pos - 1) else CrI, SO(pos), CO(pos)) ]
  }

  function Comp(k: nat, rows: nat): seq<Gate> {
    if k == 0 then [] else Comp(k - 1, rows) + CompRow(k - 1, rows)
  }

  /** generate_c42_block */
  method GenerateComp42(rows: nat) returns (gates: seq<Gate>)
    ensures gates == Comp(rows, rows)
    ensures forall v: Valuation :: Satisfies(v, gates) ==>
              Outputs(v, rows) + Pow2(rows) * Num(v, CarryInto(rows, rows))
              == InputWord(v, 0, rows, rows) + InputWord(v, 1, rows, rows)
                 + InputWord(v, 2, rows, rows) + InputWord(v, 3, rows, rows) + Num(v, CrI)
  {
    hide Satisfies, Outputs, InputWord, Num, Pow2, CarryInto;
    gates := [];
    for pos := 0 to rows
      invariant gates == Comp(pos, rows)
    {
      var row := [Addf(InBit(3, pos, rows), InBit(2, pos, rows), InBit(1, pos, rows), S0(pos),
                       if pos == rows - 1 then ClO else Cl(pos))];
      row := row + [Addf(InBit(0, pos, rows), S0(pos), if pos > 0 then Cl(pos - 1) else CrI, SO(pos), CO(pos))];
      gates := gates + row;
    }
    forall v: Valuation | Satisfies(v, gates)
      ensures Outputs(v, rows) + Pow2(rows) * Num(v, CarryInto(rows, rows))
           == InputWord(v, 0, rows, rows) + InputWord(v, 1, rows, rows)
              + InputWord(v, 2, rows, rows) + InputWord(v, 3, rows, rows) + Num(v, CrI)
    {
      CompConservesTo(v, rows, rows);
    }
  }

  /** The number presented on input word w, over the lowest k rows. */
  function InputWord(v: Valuation, w: nat, k: nat, rows: nat): int {
    if k == 0 then 0 else InputWord(v, w, k - 1, rows) + Pow2(k - 1) * Num(v, InBit(w, k - 1, rows))
  }

  lemma {:induction false} CompRowSatisfied(v: Valuation, pos: nat, k: nat, rows: nat)
    requires pos < k && Satisfies(v, Comp(k, rows))
    ensures Satisfies(v, CompRow(pos, rows))
  {
    hide CompRow, Satisfies;
    SatisfiesParts(v, Comp(k - 1, rows), CompRow(k - 1, rows));
    if pos < k - 1 {
      CompRowSatisfied(v, pos, k - 1, rows);
    }
  }

  lemma CompColumn(v: Valuation, pos: nat, rows: nat)
    requires pos < rows && Satisfies(v, CompRow(pos, rows))
    ensures Num(v, SO(pos)) + 2 * Num(v, CO(pos)) + 2 * Num(v, CarryInto(pos + 1, rows))
         == Num(v, InBit(0, pos, rows)) + Num(v, InBit(1, pos, rows)) + Num(v, InBit(2, pos, rows))
            + Num(v, InBit(3, pos, rows)) + Num(v, CarryInto(pos, rows))
  {
    hide Num, Sum3, Carry3, InBit;
    var g := CompRow(pos, rows);
    assert Holds(v, g[0]) && Holds(v, g[1]);
    FullAdder(v, InBit(3, pos, rows), InBit(2, pos, rows), InBit(1, pos, rows), S0(pos), CarryInto(pos + 1, rows));
    FullAdder(v, InBit(0, pos, rows), S0(pos), CarryInto(pos, rows), SO(pos), CO(pos));
  }

  lemma {:induction false} CompConservesTo(v: Valuation, k: nat, rows: nat)
    requires k <= rows && Satisfies(v, Comp(rows, rows))
    ensures Outputs(v, k) + Pow2(k) * Num(v, CarryInto(k, rows))
         == InputWord(v, 0, k, rows) + InputWord(v, 1, k, rows) + InputWord(v, 2, k, rows) + InputWord(v, 3, k, rows)
            + Num(v, CrI)
  {
    hide Num, Satisfies, InBit;
    if k > 0 {
      CompConservesTo(v, k - 1, rows);
      CompRowSatisfied(v, k - 1, rows, rows);
      CompColumn(v, k - 1, rows);
      var a, b, c, d := Num(v, InBit(0, k - 1, rows)), Num(v, InBit(1, k - 1, rows)),
                        Num(v, InBit(2, k - 1, rows)), Num(v, InBit(3, k - 1, rows));
      ColumnStep(Pow2(k - 1), Num(v, SO(k - 1)) + 2 * Num(v, CO(k - 1)), Num(v, CarryInto(k, rows)),
                 a + b + c + d, Num(v, CarryInto(k - 1, rows)));
      Expand(Pow2(k - 1), a, b, c, d);
    }
  }

  lemma Expand(p: int, a: int, b: int, c: int, d: int)
    ensures p * (a + b + c + d) == p * a + p * b + p * c + p * d
  {
  }

  /** Four words and a carry in are compressed to two words and a carry out of the same total value. */
  lemma CompConserves(v: Valuation, rows: nat)
    requires rows > 0 && Satisfies(v, Comp(rows, rows))
    ensures Outputs(v, rows) + Pow2(rows) * Num(v, ClO)
         == InputWord(v, 0, rows, rows) + InputWord(v, 1, rows, rows)
            + InputWord(v, 2, rows, rows) + InputWord(v, 3, rows, rows) + Num(v, CrI)
  {
    CompConservesTo(v, rows, rows);
  }

  /** cl_o depends on the last row's inputs only, never on cr_i. */
  lemma CompCarryIndependent(v: Valuation, v': Valuation, rows: nat)
    requires rows > 0 && Satisfies(v, Comp(rows, rows)) && Satisfies(v', Comp(rows, rows))
    requires forall k :: v(In(k)) == v'(In(k))
    ensures v(ClO) == v'(ClO)
  {
    CompRowSatisfied(v, rows - 1, rows, rows);
    CompRowSatisfied(v', rows - 1, rows, rows);
    assert Holds(v, CompRow(rows - 1, rows)[0]) && Holds(v', CompRow(rows - 1, rows)[0]);
  }

  // ----- the unhardened block ----------------------------------------------

  /** bsg_mul_comp42 at pos; it takes its words in the opposite order. */
  predicate SoftComp(v: Valuation, pos: nat, rows: nat) {
    && Holds(v, Addf(InBit(0, pos, rows), InBit(1, pos, rows), InBit(2, pos, rows), S0(pos), CarryInto(pos + 1, rows)))
    && Holds(v, Addf(InBit(3, pos, rows), S0(pos), CarryInto(pos, rows), SO(pos), CO(pos)))
  }

  /** A stable state of a compressor block, hardened or not. */
  predicate CompStable(v: Valuation, rows: nat, hard: bool) {
    if hard then Satisfies(v, Comp(rows, rows)) else forall pos :: 0 <= pos < rows ==> SoftComp(v, pos, rows)
  }

  lemma SoftCompColumn(v: Valuation, pos: nat, rows: nat)
    requires SoftComp(v, pos, rows)
    ensures Num(v, SO(pos)) + 2 * Num(v, CO(pos)) + 2 * Num(v, CarryInto(pos + 1, rows))
         == Num(v, InBit(0, pos, rows)) + Num(v, InBit(1, pos, rows)) + Num(v, InBit(2, pos, rows))
            + Num(v, InBit(3, pos, rows)) + Num(v, CarryInto(pos, rows))
  {
    hide Num, Sum3, Carry3, InBit, CarryInto;
    FullAdder(v, InBit(0, pos, rows), InBit(1, pos, rows), InBit(2, pos, rows), S0(pos), CarryInto(pos + 1, rows));
    FullAdder(v, InBit(3, pos, rows), S0(pos), CarryInto(pos, rows), SO(pos), CO(pos));
  }

  lemma {:induction false} SoftCompConserves(v: Valuation, k: nat, rows: nat)
    requires k <= rows && CompStable(v, rows, false)
    ensures Outputs(v, k) + Pow2(k) * Num(v, CarryInto(k, rows))
         == InputWord(v, 0, k, rows) + InputWord(v, 1, k, rows) + InputWord(v, 2, k, rows) + InputWord(v, 3, k, rows)
            + Num(v, CrI)
  {
    hide Num, SoftComp, InBit;
    if k > 0 {
      SoftCompConserves(v, k - 1, rows);
      assert SoftComp(v, k - 1, rows);
      SoftCompColumn(v, k - 1, rows);
      var a, b, c, d := Num(v, InBit(0, k - 1, rows)), Num(v, InBit(1, k - 1, rows)),
                        Num(v, InBit(2, k - 1, rows)), Num(v, InBit(3, k - 1, rows));
      ColumnStep(Pow2(k - 1), Num(v, SO(k - 1)) + 2 * Num(v, CO(k - 1)), Num(v, CarryInto(k, rows)),
                 a + b + c + d, Num(v, CarryInto(k - 1, rows)));
      Expand(Pow2(k - 1), a, b, c, d);
    }
  }

  /** The emitted block and the one it replaces conserve the same value. */
  lemma CompBlockConserves(v: Valuation, rows: nat, hard: bool)
    requires rows > 0 && CompStable(v, rows, hard)
    ensures Outputs(v, rows) + Pow2(rows) * Num(v, ClO)
         == InputWord(v, 0, rows, rows) + InputWord(v, 1, rows, rows)
            + InputWord(v, 2, rows, rows) + InputWord(v, 3, rows, rows) + Num(v, CrI)
  {
    hide Outputs, InputWord, Num, Satisfies, SoftComp, Pow2;
    if hard {
      CompConserves(v, rows);
    } else {
      SoftCompConserves(v, rows, rows);
      assert CarryInto(rows, rows) == ClO;
    }
  }

  // ----- stable states exist -----------------------------------------------

  function CompSum(ports: Valuation, pos: nat, rows: nat, low: nat): bool {
    Sum3(ports(InBit(low, pos, rows)), ports(InBit(low + 1, pos, rows)), ports(InBit(low + 2, pos, rows)))
  }

  function CompCarry(ports: Valuation, pos: nat, rows: nat, low: nat): bool {
    Carry3(ports(InBit(low, pos, rows)), ports(InBit(low + 1, pos, rows)), ports(InBit(low + 2, pos, rows)))
  }

  function CompCarryIn(ports: Valuation, pos: nat, rows: nat, low: nat): bool {
    if pos == 0 then ports(CrI) else CompCarry(ports, pos - 1, rows, low)
  }

  /** The state a compressor block settles in; low is the first word of the upper adder, and other
      the word of the lower one. */
  function CompSettled(ports: Valuation, rows: nat, low: nat, other: nat): Valuation {
    (w: Wire) => match w
      case Tie(level) => level
      case S0(pos) => CompSum(ports, pos, rows, low)
      case Cl(pos) => CompCarry(ports, pos, rows, low)
      case ClO => rows > 0 && CompCarry(ports, rows - 1, rows, low)
      case SO(pos) => Sum3(ports(InBit(other, pos, rows)), CompSum(ports, pos, rows, low), CompCarryIn(ports, pos, rows, low))
      case CO(pos) => Carry3(ports(InBit(other, pos, rows)), CompSum(ports, pos, rows, low), CompCarryIn(ports, pos, rows, low))
      case _ => ports(w)
  }

  lemma CompWires(ports: Valuation, rows: nat, low: nat, other: nat, pos: nat)
    requires pos < rows
    ensures var v := CompSettled(ports, rows, low, other);
            && v(Tie(true)) && !v(Tie(false))
            && (forall i: nat :: v(In(i)) == ports(In(i)))
            && v(S0(pos)) == CompSum(ports, pos, rows, low)
            && v(CarryInto(pos + 1, rows)) == CompCarry(ports, pos, rows, low)
            && v(CarryInto(pos, rows)) == CompCarryIn(ports, pos, rows, low)
            && v(SO(pos)) == Sum3(ports(InBit(other, pos, rows)), CompSum(ports, pos, rows, low), CompCarryIn(ports, pos, rows, low))
            && v(CO(pos)) == Carry3(ports(InBit(other, pos, rows)), CompSum(ports, pos, rows, low), CompCarryIn(ports, pos, rows, low))
  {
    hide CompSum, CompCarry, Sum3, Carry3;
  }

  lemma CompAddersSettle(ports: Valuation, rows: nat, pos: nat)
    requires pos < rows
    ensures var v := CompSettled(ports, rows, 1, 0);
            && Holds(v, Addf(InBit(3, pos, rows), InBit(2, pos, rows), InBit(1, pos, rows), S0(pos), CarryInto(pos + 1, rows)))
            && Holds(v, Addf(InBit(0, pos, rows), S0(pos), CarryInto(pos, rows), SO(pos), CO(pos)))
    ensures SoftComp(CompSettled(ports, rows, 0, 3), pos, rows)
  {
    hide CompSettled, CompCarryIn, CarryInto;
    CompWires(ports, rows, 1, 0, pos);
    CompWires(ports, rows, 0, 3, pos);
  }

  lemma CompRowSettles(ports: Valuation, rows: nat, pos: nat)
    requires pos < rows
    ensures Satisfies(CompSettled(ports, rows, 1, 0), CompRow(pos, rows))
  {
    hide CompSettled, Holds, InBit;
    CompWires(ports, rows, 1, 0, pos);
    CompAddersSettle(ports, rows, pos);
  }

  lemma {:induction false} CompSettles(ports: Valuation, k: nat, rows: nat)
    requires k <= rows
    ensures Satisfies(CompSettled(ports, rows, 1, 0), Comp(k, rows))
  {
    hide CompRow;
    if k > 0 {
      CompSettles(ports, k - 1, rows);
      CompRowSettles(ports, rows, k - 1);
      SatisfiesParts(CompSettled(ports, rows, 1, 0), Comp(k - 1, rows), CompRow(k - 1, rows));
    }
  }

  /** A compressor block, hardened or not, has a stable state for every value of its ports. */
  lemma CompBlockSettles(ports: Valuation, rows: nat, hard: bool) returns (v: Valuation)
    requires rows > 0
    ensures CompStable(v, rows, hard) && v(CrI) == ports(CrI) && forall i: nat :: v(In(i)) == ports(In(i))
  {
    hide CompSettled, Satisfies, SoftComp;
    CompPorts(ports, rows, 1, 0);
    CompPorts(ports, rows, 0, 3);
    if hard {
      CompSettles(ports, rows, rows);
      v := CompSettled(ports, rows, 1, 0);
    } else {
      v := CompSettled(ports, rows, 0, 3);
      forall pos | 0 <= pos < rows ensures SoftComp(v, pos, rows) {
        CompAddersSettle(ports, rows, pos);
      }
    }
  }

  lemma CompPorts(ports: Valuation, rows: nat, low: nat, other: nat)
    ensures var v := CompSettled(ports, rows, low, other);
            v(CrI) == ports(CrI) && forall i: nat :: v(In(i)) == ports(In(i))
  {
  }
}
