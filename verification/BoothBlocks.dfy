/** The three Booth block generators of bsg_mul and the value their netlists conserve. */
module BoothBlocks {
  import opened Powers
  import opened Wrappers
  import opened Netlist

  // ----- body block --------------------------------------------------------

  /** Cells of row pos of a body block with the given number of rows, in emission order. */
  function BodyRow(pos: nat, rows: nat): seq<Gate> {
    [ DotXnor(pos, 3), DotAoi(pos, 2),
      Addf(Pp(pos, 3), Pp(pos, 2), Pp(pos, 1), S0(pos), if pos < rows - 1 then Cl(pos) else ClO),
      DotXnor(pos, 1), DotAoi(pos, 0),
      DotAoi(pos, 3), DotXnor(pos, 2),
      Addf(Pp(pos, 0), S0(pos), if pos > 0 then Cl(pos - 1) else CrI, SO(pos), CO(pos)),
      DotAoi(pos, 1), DotXnor(pos, 0) ]
  }

  /** Rows 0 .. k - 1. */
  function Body(k: nat, rows: nat): seq<Gate> {
    if k == 0 then [] else Body(k - 1, rows) + BodyRow(k - 1, rows)
  }

  /** generate_booth_4_block of the body generator. */
  method GenerateBody(rows: nat) returns (gates: seq<Gate>)
    ensures gates == Body(rows, rows)
    ensures forall v: Valuation :: Satisfies(v, gates) ==>
              Outputs(v, rows) + Pow2(rows) * Num(v, CarryInto(rows, rows)) == Columns(v, rows) + Num(v, CrI)
  {
    hide Satisfies, Outputs, Columns, Num, Pow2, CarryInto;
    gates := [];
    for pos := 0 to rows
      invariant gates == Body(pos, rows)
    {
      var row := [DotXnor(pos, 3)] + [DotAoi(pos, 2)];
      row := row + [Addf(Pp(pos, 3), Pp(pos, 2), Pp(pos, 1), S0(pos), if pos < rows - 1 then Cl(pos) else ClO)];
      row := row + [DotXnor(pos, 1)] + [DotAoi(pos, 0)];
      row := row + [DotAoi(pos, 3)] + [DotXnor(pos, 2)];
      row := row + [Addf(Pp(pos, 0), S0(pos), if pos > 0 then Cl(pos - 1) else CrI, SO(pos), CO(pos))];
      row := row + [DotAoi(pos, 1)] + [DotXnor(pos, 0)];
      gates := gates + row;
    }
    forall v: Valuation | Satisfies(v, gates)
      ensures Outputs(v, rows) + Pow2(rows) * Num(v, CarryInto(rows, rows)) == Columns(v, rows) + Num(v, CrI)
    {
      BodyConserves(v, rows, rows);
    }
  }

  /** Weighted sum of the sum and carry outputs of rows 0 .. k - 1; carries weigh double. */
  function Outputs(v: Valuation, k: nat): int {
    if k == 0 then 0
    else Outputs(v, k - 1) + Pow2(k - 1) * (Num(v, SO(k - 1)) + 2 * Num(v, CO(k - 1)))
  }

  /** The four partial-product bits of a column. */
  function Column(v: Valuation, pos: nat): nat {
    Bit(DotAt(v, pos, 0)) + Bit(DotAt(v, pos, 1)) + Bit(DotAt(v, pos, 2)) + Bit(DotAt(v, pos, 3))
  }

  function Columns(v: Valuation, k: nat): int {
    if k == 0 then 0 else Columns(v, k - 1) + Pow2(k - 1) * Column(v, k - 1)
  }

  /** The wire carrying the intermediate carry into row k, out of row k - 1. */
  function CarryInto(k: nat, rows: nat): Wire {
    if k == 0 then CrI else if k - 1 < rows - 1 then Cl(k - 1) else ClO
  }

  lemma BodyColumn(v: Valuation, pos: nat, rows: nat)
    requires pos < rows && Satisfies(v, BodyRow(pos, rows))
    ensures Num(v, SO(pos)) + 2 * Num(v, CO(pos)) + 2 * Num(v, CarryInto(pos + 1, rows))
         == Column(v, pos) + Num(v, CarryInto(pos, rows))
  {
    hide Dot, Sum3, Carry3, SdnBit, YBit, DotAt, DotAoi, DotXnor, Num;
    var g := BodyRow(pos, rows);
    assert Holds(v, g[0]) && Holds(v, g[1]) && Holds(v, g[2]) && Holds(v, g[3]) && Holds(v, g[4]);
    assert Holds(v, g[5]) && Holds(v, g[6]) && Holds(v, g[7]) && Holds(v, g[8]) && Holds(v, g[9]);
    hide Holds;
    DotValue(v, pos, 0);
    DotValue(v, pos, 1);
    DotValue(v, pos, 2);
    DotValue(v, pos, 3);
    FullAdder(v, Pp(pos, 3), Pp(pos, 2), Pp(pos, 1), S0(pos), CarryInto(pos + 1, rows));
    FullAdder(v, Pp(pos, 0), S0(pos), CarryInto(pos, rows), SO(pos), CO(pos));
  }

  lemma DotValue(v: Valuation, pos: nat, word: nat)
    requires Holds(v, DotAoi(pos, word))
    ensures Holds(v, DotXnor(pos, word)) ==> Num(v, Pp(pos, word)) == Bit(DotAt(v, pos, word))
    ensures Holds(v, DotXor(pos, word)) ==> Num(v, Pp(pos, word)) == 1 - Bit(DotAt(v, pos, word))
  {
    DotFormed(v, pos, word);
  }

  lemma {:induction false} BodyRowSatisfied(v: Valuation, pos: nat, k: nat, rows: nat)
    requires pos < k && Satisfies(v, Body(k, rows))
    ensures Satisfies(v, BodyRow(pos, rows))
  {
    hide BodyRow, Satisfies;
    SatisfiesParts(v, Body(k - 1, rows), BodyRow(k - 1, rows));
    if pos < k - 1 {
      BodyRowSatisfied(v, pos, k - 1, rows);
    }
  }

  /** Value conservation for a body block of any height, in every stable state of its netlist:
      sums, doubled carries and the outgoing carry add up to the dots and the incoming carry. */
  lemma {:induction false} BodyConserves(v: Valuation, k: nat, rows: nat)
    requires k <= rows && Satisfies(v, Body(rows, rows))
    ensures Outputs(v, k) + Pow2(k) * Num(v, CarryInto(k, rows)) == Columns(v, k) + Num(v, CrI)
  {
    hide Num, Column, Satisfies, BodyRow;
    if k > 0 {
      BodyConserves(v, k - 1, rows);
      BodyRowSatisfied(v, k - 1, rows, rows);
      BodyColumn(v, k - 1, rows);
      ColumnStep(Pow2(k - 1), Num(v, SO(k - 1)) + 2 * Num(v, CO(k - 1)), Num(v, CarryInto(k, rows)),
                 Column(v, k - 1), Num(v, CarryInto(k - 1, rows)));
    }
  }

  lemma ColumnStep(p: nat, out: nat, carryOut: nat, column: nat, carryIn: nat)
    requires out + 2 * carryOut == column + carryIn
    ensures p * out + 2 * p * carryOut == p * column + p * carryIn
  {
    Distribute(out, 2 * carryOut, p);
    Distribute(column, carryIn, p);
  }

  /** The outgoing carry of a body block does not wait for the incoming one: it is a function
      of the last row's dots alone, so a chain of blocks has no ripple. */
  lemma BodyCarryIndependent(v: Valuation, rows: nat)
    requires rows > 0 && Satisfies(v, Body(rows, rows))
    ensures v(ClO) == Carry3(DotAt(v, rows - 1, 3), DotAt(v, rows - 1, 2), DotAt(v, rows - 1, 1))
  {
    hide Dot, SdnBit, YBit, DotAt;
    BodyRowSatisfied(v, rows - 1, rows, rows);
    var pos, g := rows - 1, BodyRow(rows - 1, rows);
    assert Holds(v, g[0]) && Holds(v, g[1]) && Holds(v, g[2]) && Holds(v, g[3]);
    assert Holds(v, g[5]) && Holds(v, g[6]) && Holds(v, g[8]);
    DotFormed(v, pos, 1);
    DotFormed(v, pos, 2);
    DotFormed(v, pos, 3);
  }

  /** The state a body block settles in for given port values. */
  function Settled(ports: Valuation, rows: nat): Valuation {
    (w: Wire) => match w
      case Tie(level) => level
      case Pp(pos, b) => DotAt(ports, pos, b)
      case Aoi(pos, b) => DotAt(ports, pos, b) == ports(SdnBit(b + 1, 0))
      case S0(pos) => UpperSum(ports, pos)
      case Cl(pos) => UpperCarry(ports, pos)
      case ClO => rows > 0 && UpperCarry(ports, rows - 1)
      case SO(pos) => Sum3(DotAt(ports, pos, 0), UpperSum(ports, pos), CarryIn(ports, pos))
      case CO(pos) => Carry3(DotAt(ports, pos, 0), UpperSum(ports, pos), CarryIn(ports, pos))
      case _ => ports(w)
  }

  function UpperSum(ports: Valuation, pos: nat): bool {
    Sum3(DotAt(ports, pos, 3), DotAt(ports, pos, 2), DotAt(ports, pos, 1))
  }

  function UpperCarry(ports: Valuation, pos: nat): bool {
    Carry3(DotAt(ports, pos, 3), DotAt(ports, pos, 2), DotAt(ports, pos, 1))
  }

  function CarryIn(ports: Valuation, pos: nat): bool {
    if pos == 0 then ports(CrI) else UpperCarry(ports, pos - 1)
  }

  /** A stable state exists for every input, so conservation is not vacuous. */
  lemma {:induction false} BodySettles(ports: Valuation, k: nat, rows: nat)
    requires k <= rows
    ensures Satisfies(Settled(ports, rows), Body(k, rows))
  {
    hide BodyRow, DotAt;
    if k > 0 {
      BodySettles(ports, k - 1, rows);
      BodyRowSettles(ports, k - 1, rows);
      SatisfiesParts(Settled(ports, rows), Body(k - 1, rows), BodyRow(k - 1, rows));
    }
  }

  lemma BodyRowSettles(ports: Valuation, pos: nat, rows: nat)
    requires pos < rows
    ensures Satisfies(Settled(ports, rows), BodyRow(pos, rows))
  {
    hide DotAoi, DotXnor, Holds, Settled;
    var v, g := Settled(ports, rows), BodyRow(pos, rows);
    DotSettles(ports, pos, 0, rows);
    DotSettles(ports, pos, 1, rows);
    DotSettles(ports, pos, 2, rows);
    DotSettles(ports, pos, 3, rows);
    AddersSettle(ports, pos, rows);
    forall i | 0 <= i < |g| ensures Holds(v, g[i]) {
      assert i in {0, 1, 2, 3, 4, 5, 6, 7, 8, 9};
    }
  }

  lemma DotSettles(ports: Valuation, pos: nat, b: nat, rows: nat)
    ensures Holds(Settled(ports, rows), DotAoi(pos, b)) && Holds(Settled(ports, rows), DotXnor(pos, b))
  {
  }

  lemma SettledWires(ports: Valuation, pos: nat, rows: nat)
    requires pos < rows
    ensures var v := Settled(ports, rows);
            && (forall b: nat :: v(Pp(pos, b)) == DotAt(ports, pos, b))
            && v(S0(pos)) == UpperSum(ports, pos)
            && v(CarryInto(pos + 1, rows)) == UpperCarry(ports, pos)
            && v(CarryInto(pos, rows)) == CarryIn(ports, pos)
            && v(SO(pos)) == Sum3(DotAt(ports, pos, 0), UpperSum(ports, pos), CarryIn(ports, pos))
            && v(CO(pos)) == Carry3(DotAt(ports, pos, 0), UpperSum(ports, pos), CarryIn(ports, pos))
            && v(Tie(true)) && !v(Tie(false))
  {
    hide Sum3, Carry3, DotAt;
  }

  lemma AddersSettle(ports: Valuation, pos: nat, rows: nat)
    requires pos < rows
    ensures var v, g := Settled(ports, rows), BodyRow(pos, rows);
            v(Tie(true)) && !v(Tie(false)) && Holds(v, g[2]) && Holds(v, g[7])
  {
    hide Settled, Sum3, Carry3, DotAt, CarryIn, DotAoi, DotXnor;
    var g := BodyRow(pos, rows);
    SettledWires(ports, pos, rows);
    assert g[2] == Addf(Pp(pos, 3), Pp(pos, 2), Pp(pos, 1), S0(pos), CarryInto(pos + 1, rows));
    assert g[7] == Addf(Pp(pos, 0), S0(pos), CarryInto(pos, rows), SO(pos), CO(pos));
  }

  // ----- cornice: the least significant end --------------------------------

  /** Cells of one cornice row; adj is the column counted from the full eight-row cornice. */
  function CorniceRow(pos: nat, adj: nat): seq<Gate>
    requires pos <= adj <= pos + 2
  {
    CorniceNear(pos, adj) + CorniceFar(pos, adj)
  }

  /** The first of the two placement columns a row is laid out in. */
  function CorniceNear(pos: nat, adj: nat): seq<Gate> {
    var last := adj == 6 || adj == 7;
    (if last then [DotAoi(pos, 2)] else [])
    + (if adj != 0 && adj != 1 && adj != 3 then
         [Addf(if adj % 2 == 1 then Tie(false) else SdnBit(adj / 2, 0),
               if adj >= 4 then Pp(pos, 1) else Tie(false),
               Pp(pos, 0),
               if last then S0(pos) else SO(pos),
               if !last then CO(pos) else if adj < 7 then Cl(pos) else ClO)]
       else [])
    + (if adj >= 4 then [DotXnor(pos, 1)] else [])
    + (if adj >= 2 then [DotAoi(pos, 0)] else [])
  }

  function CorniceFar(pos: nat, adj: nat): seq<Gate>
    requires pos <= adj <= pos + 2
  {
    (if adj == 6 || adj == 7 then
       [DotXnor(pos, 2), Addf(Pp(pos, 2), S0(pos), if adj > 6 then Cl(pos - 1) else Tie(false), SO(pos), CO(pos))]
     else [])
    + (if adj >= 4 then [DotAoi(pos, 1)] else [])
    + (if adj >= 2 then [DotXnor(pos, 0)] else [])
    + (if adj == 0 then [Assign(SO(0), Sdn(0)), Assign(CO(0), Tie(false))] else [])
    + (if adj == 1 then [Assign(SO(1), Tie(false)), Assign(CO(1), Tie(false))] else [])
    + (if adj == 3 then [Assign(SO(pos), Pp(pos, 0)), Assign(CO(pos), Tie(false))] else [])
  }

  function Cornice(k: nat, start: nat): seq<Gate>
    requires start <= 2
  {
    if k == 0 then [] else Cornice(k - 1, start) + CorniceRow(k - 1, start + k - 1)
  }

  datatype GeneratorError = UndefinedStartRow

  /** One pass of the cornice generator's row loop. */
  method EmitCorniceRow(pos: nat, startRow: nat) returns (row: seq<Gate>)
    requires startRow <= 2 && startRow + pos < 8
    ensures row == CorniceRow(pos, startRow + pos)
  {
    var adj := startRow + pos;
    row := EmitCorniceNear(pos, adj);
    var far := EmitCorniceFar(pos, adj);
    row := row + far;
  }

  method EmitCorniceNear(pos: nat, adj: nat) returns (row: seq<Gate>)
    requires adj < 8
    ensures row == CorniceNear(pos, adj)
  {
    hide DotAoi, DotXnor, SdnBit;
    row := [];
    if adj == 6 || adj == 7 {
      row := row + [DotAoi(pos, 2)];
    }
    if adj != 0 && adj != 1 && adj != 3 {
      var a := if adj == 7 || adj == 5 || adj == 3 || adj == 1 then Tie(false) else SdnBit(adj / 2, 0);
      var s, co := SO(pos), CO(pos);
      if adj == 7 || adj == 6 {
        s, co := S0(pos), if adj < 7 then Cl(pos) else ClO;
      }
      row := row + [Addf(a, if adj >= 4 then Pp(pos, 1) else Tie(false), Pp(pos, 0), s, co)];
    }
    if adj >= 4 {
      row := row + [DotXnor(pos, 1)];
    }
    if adj >= 2 {
      row := row + [DotAoi(pos, 0)];
    }
  }

  method EmitCorniceFar(pos: nat, adj: nat) returns (row: seq<Gate>)
    requires pos <= adj <= pos + 2
    ensures row == CorniceFar(pos, adj)
  {
    hide DotAoi, DotXnor, SdnBit;
    row := [];
    if adj == 6 || adj == 7 {
      row := row + [DotXnor(pos, 2)];
      row := row + [Addf(Pp(pos, 2), S0(pos), if adj > 6 then Cl(pos - 1) else Tie(false), SO(pos), CO(pos))];
    }
    if adj >= 4 {
      row := row + [DotAoi(pos, 1)];
    }
    if adj >= 2 {
      row := row + [DotXnor(pos, 0)];
    }
    if adj == 0 {
      row := row + [Assign(SO(0), Sdn(0)), Assign(CO(0), Tie(false))];
    }
    if adj == 1 {
      row := row + [Assign(SO(1), Tie(false)), Assign(CO(1), Tie(false))];
    }
    if adj == 3 {
      row := row + [Assign(SO(pos), Pp(pos, 0)), Assign(CO(pos), Tie(false))];
    }
  }

  /** generate_booth_4_block of the cornice generator: the first strip's cornice has six rows and
      omits two columns, the others have eight, and no other height defines a start row. */
  method GenerateCornice(rows: nat) returns (r: Result<seq<Gate>, GeneratorError>)
    ensures rows == 8 ==> r == Ok(Cornice(8, 0))
    ensures rows == 6 ==> r == Ok(Cornice(6, 2))
    ensures rows == 0 ==> r == Ok([])
    ensures rows !in {0, 6, 8} ==> r == Err(UndefinedStartRow)
    ensures rows in {6, 8} ==> forall v: Valuation :: Satisfies(v, r.value) ==>
              Outputs(v, rows) + Pow2(rows) * Num(v, ClO) == CorniceColumns(v, rows, 8 - rows)
  {
    hide Satisfies, Outputs, CorniceColumns, Num, Pow2, CorniceRow;
    var startRow: Option<nat> := None;
    if rows == 8 {
      startRow := Some(0);
    } else {
      if rows == 6 {
        startRow := Some(2);
      }
    }
    var gates := [];
    for pos := 0 to rows
      invariant pos > 0 ==> startRow.Some?
      invariant startRow.Some? ==> startRow.value <= 2 && gates == Cornice(pos, startRow.value)
      invariant startRow == if rows == 8 then Some(0) else if rows == 6 then Some(2) else None
      invariant pos == 0 ==> gates == []
      invariant pos > 0 ==> rows in {6, 8}
    {
      if startRow.None? {
        return Err(UndefinedStartRow);
      }
      var row := EmitCorniceRow(pos, startRow.value);
      gates := gates + row;
    }
    forall v: Valuation | rows in {6, 8} && Satisfies(v, gates)
      ensures Outputs(v, rows) + Pow2(rows) * Num(v, ClO) == CorniceColumns(v, rows, 8 - rows)
    {
      CorniceConserves(v, 8 - rows);
    }
    return Ok(gates);
  }

  /** What a cornice column adds up: the dots of the rows that have started by column adj,
      and at even columns the negate bit of the row that starts there. */
  function CorniceColumn(v: Valuation, pos: nat, adj: nat): nat {
    (if adj >= 2 then Bit(DotAt(v, pos, 0)) else 0)
    + (if adj >= 4 then Bit(DotAt(v, pos, 1)) else 0)
    + (if adj >= 6 then Bit(DotAt(v, pos, 2)) else 0)
    + (if adj % 2 == 0 then Num(v, SdnBit(adj / 2, 0)) else 0)
  }

  function CorniceColumns(v: Valuation, k: nat, start: nat): int {
    if k == 0 then 0 else CorniceColumns(v, k - 1, start) + Pow2(k - 1) * CorniceColumn(v, k - 1, start + k - 1)
  }

  /** The carry wire from column adj - 1 to column adj, if there is one. */
  function CorniceCarry(v: Valuation, pos: nat, adj: nat): nat {
    if adj == 7 && pos > 0 then Num(v, Cl(pos - 1)) else if adj == 8 then Num(v, ClO) else 0
  }

  lemma CorniceColumnConserves(v: Valuation, pos: nat, adj: nat)
    requires pos <= adj < 8 && adj <= pos + 2 && (adj < 2 ==> pos == adj)
    requires Satisfies(v, CorniceRow(pos, adj))
    ensures Num(v, SO(pos)) + 2 * Num(v, CO(pos)) + 2 * CorniceCarry(v, pos + 1, adj + 1)
         == CorniceColumn(v, pos, adj) + CorniceCarry(v, pos, adj)
  {
    hide Dot, Sum3, Carry3, YBit, DotAt, DotAoi, DotXnor, DotXor, Num;
    var g := CorniceRow(pos, adj);
    if adj == 0 {
      assert Holds(v, g[0]) && Holds(v, g[1]);
      TieValues(v, SO(0), Sdn(0), CO(0));
      assert SdnBit(0, 0) == Sdn(0);
    } else if adj == 1 {
      assert Holds(v, g[0]) && Holds(v, g[1]);
      TieValues(v, SO(1), Tie(false), CO(1));
    } else if adj == 2 {
      assert g == [Addf(SdnBit(1, 0), Tie(false), Pp(pos, 0), SO(pos), CO(pos)), DotAoi(pos, 0), DotXnor(pos, 0)];
      assert Holds(v, g[0]) && Holds(v, g[1]) && Holds(v, g[2]);
      DotValue(v, pos, 0);
      FullAdder(v, SdnBit(1, 0), Tie(false), Pp(pos, 0), SO(pos), CO(pos));
      TieZero(v);
    } else if adj == 3 {
      assert g == [DotAoi(pos, 0), DotXnor(pos, 0), Assign(SO(pos), Pp(pos, 0)), Assign(CO(pos), Tie(false))];
      assert Holds(v, g[0]) && Holds(v, g[1]) && Holds(v, g[2]) && Holds(v, g[3]);
      DotValue(v, pos, 0);
      TieValues(v, SO(pos), Pp(pos, 0), CO(pos));
    } else if adj < 6 {
      var n := if adj == 4 then SdnBit(2, 0) else Tie(false);
      assert g == [Addf(n, Pp(pos, 1), Pp(pos, 0), SO(pos), CO(pos)),
                   DotXnor(pos, 1), DotAoi(pos, 0), DotAoi(pos, 1), DotXnor(pos, 0)];
      assert Holds(v, g[0]) && Holds(v, g[1]) && Holds(v, g[2]) && Holds(v, g[3]) && Holds(v, g[4]);
      DotValue(v, pos, 0);
      DotValue(v, pos, 1);
      FullAdder(v, n, Pp(pos, 1), Pp(pos, 0), SO(pos), CO(pos));
      TieZero(v);
    } else {
      CorniceTopConserves(v, pos, adj);
    }
  }

  lemma CorniceTopConserves(v: Valuation, pos: nat, adj: nat)
    requires pos <= adj < 8 && adj <= pos + 2 && adj >= 6
    requires Satisfies(v, CorniceRow(pos, adj))
    ensures Num(v, SO(pos)) + 2 * Num(v, CO(pos)) + 2 * CorniceCarry(v, pos + 1, adj + 1)
         == CorniceColumn(v, pos, adj) + CorniceCarry(v, pos, adj)
  {
    hide Dot, Sum3, Carry3, YBit, DotAt, DotAoi, DotXnor, DotXor, Num;
    var g := CorniceRow(pos, adj);
    var n := if adj == 6 then SdnBit(3, 0) else Tie(false);
    var ci := if adj > 6 then Cl(pos - 1) else Tie(false);
    var co := if adj < 7 then Cl(pos) else ClO;
    assert g == [DotAoi(pos, 2), Addf(n, Pp(pos, 1), Pp(pos, 0), S0(pos), co),
                 DotXnor(pos, 1), DotAoi(pos, 0), DotXnor(pos, 2), Addf(Pp(pos, 2), S0(pos), ci, SO(pos), CO(pos)),
                 DotAoi(pos, 1), DotXnor(pos, 0)];
    assert Holds(v, g[0]) && Holds(v, g[1]) && Holds(v, g[2]) && Holds(v, g[3]);
    assert Holds(v, g[4]) && Holds(v, g[5]) && Holds(v, g[6]) && Holds(v, g[7]);
    DotValue(v, pos, 0);
    DotValue(v, pos, 1);
    DotValue(v, pos, 2);
    FullAdder(v, n, Pp(pos, 1), Pp(pos, 0), S0(pos), co);
    FullAdder(v, Pp(pos, 2), S0(pos), ci, SO(pos), CO(pos));
    TieZero(v);
  }

  lemma TieZero(v: Valuation)
    requires Satisfies(v, []) || (v(Tie(true)) && !v(Tie(false)))
    ensures Num(v, Tie(false)) == 0 && Num(v, Tie(true)) == 1
  {
  }

  lemma TieValues(v: Valuation, s: Wire, a: Wire, c: Wire)
    requires v(Tie(true)) && !v(Tie(false)) && Holds(v, Assign(s, a)) && Holds(v, Assign(c, Tie(false)))
    ensures Num(v, s) == Num(v, a) && Num(v, c) == 0 && Num(v, Tie(false)) == 0
  {
  }

  lemma {:induction false} CorniceRowSatisfied(v: Valuation, pos: nat, k: nat, start: nat)
    requires start <= 2 && pos < k && Satisfies(v, Cornice(k, start))
    ensures Satisfies(v, CorniceRow(pos, start + pos))
  {
    hide CorniceRow, Satisfies;
    SatisfiesParts(v, Cornice(k - 1, start), CorniceRow(k - 1, start + k - 1));
    if pos < k - 1 {
      CorniceRowSatisfied(v, pos, k - 1, start);
    }
  }

  lemma NoCarryYet(v: Valuation, start: nat)
    requires start in {0, 2}
    ensures CorniceCarry(v, 0, start) == 0
  {
  }

  lemma {:induction false} CorniceConservesTo(v: Valuation, k: nat, start: nat)
    requires start in {0, 2} && k <= 8 - start && Satisfies(v, Cornice(8 - start, start))
    ensures Outputs(v, k) + Pow2(k) * CorniceCarry(v, k, start + k) == CorniceColumns(v, k, start)
  {
    hide Num, Satisfies, CorniceRow, CorniceColumn, Cornice, CorniceCarry;
    if k == 0 {
      NoCarryYet(v, start);
    } else {
      CorniceConservesTo(v, k - 1, start);
      CorniceRowSatisfied(v, k - 1, 8 - start, start);
      CorniceColumnConserves(v, k - 1, start + k - 1);
      ColumnStep(Pow2(k - 1), Num(v, SO(k - 1)) + 2 * Num(v, CO(k - 1)), CorniceCarry(v, k, start + k),
                 CorniceColumn(v, k - 1, start + k - 1), CorniceCarry(v, k - 1, start + k - 1));
    }
  }

  /** Upper inputs of a cornice column's adders: the negate bit that enters there and the first two rows. */
  function CorniceSum(ports: Valuation, pos: nat, adj: nat): bool {
    Sum3(adj % 2 == 0 && ports(SdnBit(adj / 2, 0)), adj >= 4 && DotAt(ports, pos, 1), adj >= 2 && DotAt(ports, pos, 0))
  }

  function CorniceCarryOut(ports: Valuation, pos: nat, adj: nat): bool {
    Carry3(adj % 2 == 0 && ports(SdnBit(adj / 2, 0)), adj >= 4 && DotAt(ports, pos, 1), adj >= 2 && DotAt(ports, pos, 0))
  }

  function CorniceCarryIn(ports: Valuation, pos: nat, adj: nat): bool {
    adj == 7 && pos > 0 && CorniceCarryOut(ports, pos - 1, adj - 1)
  }

  /** The state a cornice settles in for given port values. */
  function CorniceSettled(ports: Valuation, start: nat): Valuation {
    (w: Wire) => match w
      case Tie(level) => level
      case Pp(pos, b) => DotAt(ports, pos, b)
      case Aoi(pos, b) => DotAt(ports, pos, b) == ports(SdnBit(b + 1, 0))
      case S0(pos) => CorniceSum(ports, pos, start + pos)
      case Cl(pos) => CorniceCarryOut(ports, pos, start + pos)
      case ClO => start <= 7 && CorniceCarryOut(ports, 7 - start, 7)
      case SO(pos) =>
        if start + pos < 6 then CorniceSum(ports, pos, start + pos)
        else Sum3(DotAt(ports, pos, 2), CorniceSum(ports, pos, start + pos), CorniceCarryIn(ports, pos, start + pos))
      case CO(pos) =>
        if start + pos < 6 then CorniceCarryOut(ports, pos, start + pos)
        else Carry3(DotAt(ports, pos, 2), CorniceSum(ports, pos, start + pos), CorniceCarryIn(ports, pos, start + pos))
      case _ => ports(w)
  }

  lemma CorniceDotSettles(ports: Valuation, start: nat, pos: nat, b: nat)
    ensures Holds(CorniceSettled(ports, start), DotAoi(pos, b)) && Holds(CorniceSettled(ports, start), DotXnor(pos, b))
  {
  }

  lemma CorniceWires(ports: Valuation, start: nat, pos: nat)
    requires start in {0, 2} && pos < 8 - start
    ensures var v, adj := CorniceSettled(ports, start), start + pos;
            && v(Tie(true)) && !v(Tie(false))
            && (forall i: nat :: v(Sdn(i)) == ports(Sdn(i)))
            && (forall b: nat :: v(Pp(pos, b)) == DotAt(ports, pos, b))
            && v(S0(pos)) == CorniceSum(ports, pos, adj)
            && v(if adj < 7 then Cl(pos) else ClO) == CorniceCarryOut(ports, pos, adj)
            && (pos > 0 ==> v(Cl(pos - 1)) == CorniceCarryOut(ports, pos - 1, adj - 1))
            && (adj < 6 ==> v(SO(pos)) == CorniceSum(ports, pos, adj) && v(CO(pos)) == CorniceCarryOut(ports, pos, adj))
            && (adj >= 6 ==>
                  && v(SO(pos)) == Sum3(DotAt(ports, pos, 2), CorniceSum(ports, pos, adj), CorniceCarryIn(ports, pos, adj))
                  && v(CO(pos)) == Carry3(DotAt(ports, pos, 2), CorniceSum(ports, pos, adj), CorniceCarryIn(ports, pos, adj)))
  {
    hide CorniceSum, CorniceCarryOut, CorniceCarryIn, DotAt, Sum3, Carry3;
  }

  lemma CorniceRowSettles(ports: Valuation, start: nat, pos: nat)
    requires start in {0, 2} && pos < 8 - start
    ensures Satisfies(CorniceSettled(ports, start), CorniceRow(pos, start + pos))
  {
    hide DotAoi, DotXnor, DotAt, CorniceSettled, CorniceRow, CorniceSum, CorniceCarryOut, CorniceCarryIn, Holds, Satisfies, SdnBit;
    CorniceDotSettles(ports, start, pos, 0);
    CorniceDotSettles(ports, start, pos, 1);
    CorniceDotSettles(ports, start, pos, 2);
    CorniceUpperSettles(ports, start, pos);
    if start + pos >= 6 {
      CorniceLowerSettles(ports, start, pos);
    }
    CorniceCells(CorniceSettled(ports, start), pos, start + pos);
  }

  lemma CorniceUpperSettles(ports: Valuation, start: nat, pos: nat)
    requires start in {0, 2} && pos < 8 - start
    ensures var v, adj := CorniceSettled(ports, start), start + pos;
            var neg, one, zero := adj % 2 == 0 && v(SdnBit(adj / 2, 0)), adj >= 4 && v(Pp(pos, 1)), adj >= 2 && v(Pp(pos, 0));
            && v(Tie(true)) && !v(Tie(false))
            && v(if adj < 6 then SO(pos) else S0(pos)) == Sum3(neg, one, zero)
            && v(if adj < 6 then CO(pos) else if adj < 7 then Cl(pos) else ClO) == Carry3(neg, one, zero)
  {
    hide DotAt, CorniceSettled, CorniceCarryIn, Sum3, Carry3;
    CorniceWires(ports, start, pos);
  }

  lemma CorniceLowerSettles(ports: Valuation, start: nat, pos: nat)
    requires start in {0, 2} && pos < 8 - start && start + pos >= 6
    ensures var v, adj := CorniceSettled(ports, start), start + pos;
            && (adj == 6 ==> Holds(v, Addf(Pp(pos, 2), S0(pos), Tie(false), SO(pos), CO(pos))))
            && (adj > 6 && pos > 0 ==> Holds(v, Addf(Pp(pos, 2), S0(pos), Cl(pos - 1), SO(pos), CO(pos))))
  {
    hide DotAt, CorniceSettled, CorniceSum, CorniceCarryOut, Sum3, Carry3;
    CorniceWires(ports, start, pos);
  }

  /** The cells a cornice row may have hold. */
  predicate CorniceCellsHold(v: Valuation, pos: nat, adj: nat) {
    var neg, one, zero := adj % 2 == 0 && v(SdnBit(adj / 2, 0)), adj >= 4 && v(Pp(pos, 1)), adj >= 2 && v(Pp(pos, 0));
    var s, c := if adj < 6 then SO(pos) else S0(pos),
                if adj < 6 then CO(pos) else if adj < 7 then Cl(pos) else ClO;
    && v(Tie(true)) && !v(Tie(false))
    && Holds(v, DotAoi(pos, 0)) && Holds(v, DotXnor(pos, 0)) && Holds(v, DotAoi(pos, 1)) && Holds(v, DotXnor(pos, 1))
    && Holds(v, DotAoi(pos, 2)) && Holds(v, DotXnor(pos, 2))
    && v(s) == Sum3(neg, one, zero) && v(c) == Carry3(neg, one, zero)
    && (adj == 6 ==> Holds(v, Addf(Pp(pos, 2), S0(pos), Tie(false), SO(pos), CO(pos))))
    && (adj > 6 && pos > 0 ==> Holds(v, Addf(Pp(pos, 2), S0(pos), Cl(pos - 1), SO(pos), CO(pos))))
  }

  lemma CorniceCells(v: Valuation, pos: nat, adj: nat)
    requires pos <= adj <= pos + 2 && adj < 8 && (adj < 2 ==> pos == adj) && CorniceCellsHold(v, pos, adj)
    ensures Satisfies(v, CorniceRow(pos, adj))
  {
    hide CorniceNear, CorniceFar, Holds, Satisfies, SdnBit, DotAoi, DotXnor;
    CorniceNearCells(v, pos, adj);
    CorniceFarCells(v, pos, adj);
    SatisfiesParts(v, CorniceNear(pos, adj), CorniceFar(pos, adj));
  }

  lemma CorniceNearCells(v: Valuation, pos: nat, adj: nat)
    requires adj < 8 && CorniceCellsHold(v, pos, adj)
    ensures Satisfies(v, CorniceNear(pos, adj))
  {
    hide DotAoi, DotXnor, SdnBit, Sum3, Carry3;
    var g := CorniceNear(pos, adj);
    assert forall i :: 0 <= i < |g| ==> Holds(v, g[i]);
  }

  lemma CorniceFarCells(v: Valuation, pos: nat, adj: nat)
    requires pos <= adj <= pos + 2 && adj < 8 && (adj < 2 ==> pos == adj) && CorniceCellsHold(v, pos, adj)
    ensures Satisfies(v, CorniceFar(pos, adj))
  {
    hide DotAoi, DotXnor, Sum3, Carry3;
    var g := CorniceFar(pos, adj);
    CorniceAdder(v, adj % 2 == 0 && v(SdnBit(adj / 2, 0)), adj >= 4 && v(Pp(pos, 1)), adj >= 2 && v(Pp(pos, 0)));
    if adj == 0 {
      assert SdnBit(0, 0) == Sdn(0);
    }
    assert forall i :: 0 <= i < |g| ==> Holds(v, g[i]);
  }

  lemma CorniceAdder(v: Valuation, a: bool, b: bool, c: bool)
    ensures !a && !b ==> Sum3(a, b, c) == c && !Carry3(a, b, c)
    ensures !b && !c ==> Sum3(a, b, c) == a && !Carry3(a, b, c)
  {
  }

  /** Both cornices have a stable state for every port value. */
  lemma {:induction false} CorniceSettles(ports: Valuation, k: nat, start: nat)
    requires start in {0, 2} && k <= 8 - start
    ensures Satisfies(CorniceSettled(ports, start), Cornice(k, start))
  {
    hide CorniceRow, CorniceSettled;
    if k > 0 {
      CorniceSettles(ports, k - 1, start);
      CorniceRowSettles(ports, start, k - 1);
      SatisfiesParts(CorniceSettled(ports, start), Cornice(k - 1, start), CorniceRow(k - 1, start + k - 1));
    } else {
      assert Satisfies(CorniceSettled(ports, start), []) by {
        CorniceRowSettles(ports, start, 0);
      }
    }
  }

  /** Value conservation for both cornices: dots, plus every row's negate bit at its lowest column. */
  lemma CorniceConserves(v: Valuation, start: nat)
    requires start in {0, 2} && Satisfies(v, Cornice(8 - start, start))
    ensures Outputs(v, 8 - start) + Pow2(8 - start) * Num(v, ClO) == CorniceColumns(v, 8 - start, start)
  {
    hide Outputs, CorniceColumns, Satisfies, Cornice, Num, Pow2;
    CorniceConservesTo(v, 8 - start, start);
  }

  // ----- end cornice: the most significant end -----------------------------

  /** Cells of one end-cornice row. At columns 0, 2, 4 and 6 one row ends with its sign bit,
      which is formed inverted, and constant ones fill the columns between. */
  function EndRow(pos: nat): seq<Gate> {
    EndNear(pos) + EndFar(pos)
  }

  function EndTies(pos: nat): seq<Gate> {
    (if pos == 0 then [Assign(ClO, Tie(false))] else [])
    + (if pos == 7 then [Assign(CO(7), Tie(false)), Assign(SO(7), Tie(true))] else [])
    + (if pos == 6 then [Assign(CO(6), Tie(false))] else [])
  }

  function EndNear(pos: nat): seq<Gate> {
    EndTies(pos)
    + (if pos < 7 then
         [if pos == 6 then Xor2(Aoi(6, 3), SdnBit(4, 0), SO(6)) else DotXnor(pos, 3)] else [])
    + (if pos < 5 then [DotAoi(pos, 2)] else [])
    + (if pos < 6 then
         [Addf(Pp(pos, 3),
               if pos < 5 then Pp(pos, 2) else Tie(true),
               if pos < 3 then Pp(pos, 1) else if pos == 3 then Tie(true)
               else if pos == 4 then Cl(3) else Tie(false),
               if pos > 3 then SO(pos) else S0(pos),
               if pos > 3 then CO(pos) else Cl(pos))] else [])
    + (if pos < 3 then [if pos == 2 then DotXor(pos, 1) else DotXnor(pos, 1)] else [])
    + (if pos < 1 then [DotAoi(pos, 0)] else [])
  }

  function EndFar(pos: nat): seq<Gate> {
    (if pos < 7 then [DotAoi(pos, 3)] else [])
    + (if pos < 5 then [if pos == 4 then DotXor(pos, 2) else DotXnor(pos, 2)] else [])
    + (if pos < 4 then
         [Addf(if pos == 0 then Pp(0, 0) else Tie(pos == 1),
               S0(pos),
               if pos > 0 then Cl(pos - 1) else CrI,
               SO(pos), CO(pos))] else [])
    + (if pos < 3 then [DotAoi(pos, 1)] else [])
    + (if pos == 0 then [DotXor(0, 0)] else [])
  }

  function End(k: nat): seq<Gate> {
    if k == 0 then [] else End(k - 1) + EndRow(k - 1)
  }

  /** One pass of that generator's row loop, a placement column at a time. */
  method EmitEndRow(pos: nat) returns (row: seq<Gate>)
    ensures row == EndRow(pos)
  {
    row := EmitEndNear(pos);
    var far := EmitEndFar(pos);
    row := row + far;
  }

  method EmitEndTies(pos: nat) returns (row: seq<Gate>)
    ensures row == EndTies(pos)
  {
    row := if pos == 0 then [Assign(ClO, Tie(false))] else [];
    if pos == 7 {
      row := row + [Assign(CO(pos), Tie(false))];
      row := row + [Assign(SO(pos), Tie(true))];
    }
    if pos == 6 {
      row := row + [Assign(CO(pos), Tie(false))];
    }
  }

  method EmitEndNear(pos: nat) returns (row: seq<Gate>)
    ensures row == EndNear(pos)
  {
    hide DotAoi, DotXnor, DotXor, SdnBit, EndTies;
    row := EmitEndTies(pos);
    if pos < 7 {
      row := row + [if pos == 6 then Xor2(Aoi(pos, 3), SdnBit(4, 0), SO(pos)) else DotXnor(pos, 3)];
    }
    if pos < 5 {
      row := row + [DotAoi(pos, 2)];
    }
    if pos < 6 {
      var b := if pos < 5 then Pp(pos, 2) else Tie(pos == 5);
      var ci := if pos < 3 then Pp(pos, 1) else if pos == 3 then Tie(true) else if pos == 4 then Cl(pos - 1) else Tie(false);
      row := row + [Addf(Pp(pos, 3), b, ci, if pos > 3 then SO(pos) else S0(pos), if pos > 3 then CO(pos) else Cl(pos))];
    }
    if pos < 3 {
      row := row + [if pos == 2 then DotXor(pos, 1) else DotXnor(pos, 1)];
    }
    if pos < 1 {
      row := row + [DotAoi(pos, 0)];
    }
  }

  method EmitEndFar(pos: nat) returns (row: seq<Gate>)
    ensures row == EndFar(pos)
  {
    hide DotAoi, DotXnor, DotXor, SdnBit;
    row := [];
    if pos < 7 {
      row := row + [DotAoi(pos, 3)];
    }
    if pos < 5 {
      row := row + [if pos == 4 then DotXor(pos, 2) else DotXnor(pos, 2)];
    }
    if pos < 4 {
      var a := if pos == 0 then Pp(pos, 0) else Tie(pos == 1);
      row := row + [Addf(a, S0(pos), if pos > 0 then Cl(pos - 1) else CrI, SO(pos), CO(pos))];
    }
    if pos < 3 {
      row := row + [DotAoi(pos, 1)];
    }
    if pos == 0 {
      row := row + [DotXor(pos, 0)];
    }
  }

  /** generate_booth_4_block of the end-cornice generator: in every stable state of the cells it
      emits, sums, doubled carries and the carry still under way are worth the running dots less the
      sign bits, a one in every column, and the incoming carry. */
  method GenerateEnd(rows: nat) returns (gates: seq<Gate>)
    ensures gates == End(rows)
    ensures rows <= 8 ==> forall v: Valuation :: Satisfies(v, gates) ==>
              Outputs(v, rows) + Pow2(rows) * EndCarry(v, rows)
              == EndColumns(v, rows) + (Pow2(rows) - 1) + Num(v, CrI)
    ensures 5 <= rows <= 8 ==> forall v: Valuation :: Satisfies(v, gates) ==> EndCarry(v, rows) == 0 && !v(ClO)
  {
    hide Satisfies, Outputs, EndColumns, Num, Pow2;
    gates := [];
    for pos := 0 to rows
      invariant gates == End(pos)
    {
      var row := EmitEndRow(pos);
      gates := gates + row;
    }
    forall v: Valuation | rows <= 8 && Satisfies(v, gates)
      ensures Outputs(v, rows) + Pow2(rows) * EndCarry(v, rows)
           == EndColumns(v, rows) + (Pow2(rows) - 1) + Num(v, CrI)
    {
      EndConservesTo(v, rows, rows);
    }
    forall v: Valuation | 5 <= rows <= 8 && Satisfies(v, gates) ensures !v(ClO) {
      EndConserves(v, rows);
    }
  }

  /** What an end column is worth: the dots of the rows still running, minus the sign bit of the
      row that ends here. */
  function EndColumn(v: Valuation, pos: nat): int {
    (if pos < 6 then Bit(DotAt(v, pos, 3)) else if pos == 6 then Sign(DotAt(v, pos, 3)) else 0)
    + (if pos < 4 then Bit(DotAt(v, pos, 2)) else if pos == 4 then Sign(DotAt(v, pos, 2)) else 0)
    + (if pos < 2 then Bit(DotAt(v, pos, 1)) else if pos == 2 then Sign(DotAt(v, pos, 1)) else 0)
    + (if pos == 0 then Sign(DotAt(v, pos, 0)) else 0)
  }

  /** A two's-complement sign bit weighs negatively. */
  function Sign(b: bool): int {
    if b then -1 else 0
  }

  function EndColumns(v: Valuation, k: nat): int {
    if k == 0 then 0 else EndColumns(v, k - 1) + Pow2(k - 1) * EndColumn(v, k - 1)
  }

  /** The carry into end column k: CrI first, then the intermediate carries up to column 4. */
  function EndCarry(v: Valuation, k: nat): nat {
    if k == 0 then Num(v, CrI) else if k <= 4 then Num(v, Cl(k - 1)) else 0
  }

  lemma EndColumnConserves(v: Valuation, pos: nat)
    requires pos < 8 && Satisfies(v, EndRow(pos))
    ensures Num(v, SO(pos)) + 2 * Num(v, CO(pos)) + 2 * EndCarry(v, pos + 1)
         == EndColumn(v, pos) + 1 + EndCarry(v, pos)
  {
    hide Dot, Sum3, Carry3, SdnBit, YBit, DotAt, DotAoi, DotXnor, DotXor, Num;
    TieZero(v);
    if pos < 3 {
      EndColumnsLow(v, pos);
    } else {
      EndColumnsHigh(v, pos);
    }
  }

  /** The cells of the lowest three rows. */
  lemma LowEndCells(v: Valuation, pos: nat)
    requires pos < 3 && Satisfies(v, EndRow(pos))
    ensures Holds(v, DotAoi(pos, 1)) && Holds(v, DotAoi(pos, 2)) && Holds(v, DotAoi(pos, 3))
    ensures Holds(v, if pos == 2 then DotXor(pos, 1) else DotXnor(pos, 1))
    ensures Holds(v, DotXnor(pos, 2)) && Holds(v, DotXnor(pos, 3))
    ensures pos == 0 ==> Holds(v, DotAoi(0, 0)) && Holds(v, DotXor(0, 0))
    ensures Holds(v, Addf(Pp(pos, 3), Pp(pos, 2), Pp(pos, 1), S0(pos), Cl(pos)))
    ensures Holds(v, Addf(if pos == 0 then Pp(0, 0) else Tie(pos == 1), S0(pos), if pos > 0 then Cl(pos - 1) else CrI,
                          SO(pos), CO(pos)))
  {
    hide Holds, SdnBit, YBit, DotAoi, DotXnor, DotXor;
    var g := EndRow(pos);
    if pos == 0 {
      assert Holds(v, g[1]) && Holds(v, g[2]) && Holds(v, g[3]) && Holds(v, g[4]) && Holds(v, g[5]);
      assert Holds(v, g[6]) && Holds(v, g[7]) && Holds(v, g[8]) && Holds(v, g[9]) && Holds(v, g[10]);
    } else {
      assert Holds(v, g[0]) && Holds(v, g[1]) && Holds(v, g[2]) && Holds(v, g[3]);
      assert Holds(v, g[4]) && Holds(v, g[5]) && Holds(v, g[6]) && Holds(v, g[7]);
    }
  }

  lemma EndColumnsLow(v: Valuation, pos: nat)
    requires pos < 3 && Satisfies(v, EndRow(pos))
    ensures Num(v, SO(pos)) + 2 * Num(v, CO(pos)) + 2 * EndCarry(v, pos + 1)
         == EndColumn(v, pos) + 1 + EndCarry(v, pos)
  {
    hide Dot, SdnBit, YBit, DotAt, DotAoi, DotXnor, DotXor, Num, Holds, EndRow;
    LowEndCells(v, pos);
    TieZero(v);
    DotValue(v, pos, 1);
    DotValue(v, pos, 2);
    DotValue(v, pos, 3);
    if pos == 0 {
      DotValue(v, 0, 0);
    }
    FullAdder(v, Pp(pos, 3), Pp(pos, 2), Pp(pos, 1), S0(pos), Cl(pos));
    FullAdder(v, if pos == 0 then Pp(0, 0) else Tie(pos == 1), S0(pos), if pos > 0 then Cl(pos - 1) else CrI, SO(pos), CO(pos));
  }

  lemma EndColumnsHigh(v: Valuation, pos: nat)
    requires 3 <= pos < 8 && Satisfies(v, EndRow(pos))
    ensures Num(v, SO(pos)) + 2 * Num(v, CO(pos)) + 2 * EndCarry(v, pos + 1)
         == EndColumn(v, pos) + 1 + EndCarry(v, pos)
  {
    hide Dot, Sum3, Carry3, YBit, DotAt, DotAoi, DotXnor, DotXor, Num;
    var g := EndRow(pos);
    TieZero(v);
    if pos == 3 {
      var high := Addf(Pp(3, 3), Pp(3, 2), Tie(true), S0(3), Cl(3));
      var low := Addf(Tie(false), S0(3), Cl(2), SO(3), CO(3));
      assert g == [DotXnor(3, 3), DotAoi(3, 2), high, DotAoi(3, 3), DotXnor(3, 2), low];
      assert Holds(v, g[0]) && Holds(v, g[1]) && Holds(v, g[2]) && Holds(v, g[3]) && Holds(v, g[4]) && Holds(v, g[5]);
      DotValue(v, 3, 2);
      DotValue(v, 3, 3);
      FullAdder(v, Pp(3, 3), Pp(3, 2), Tie(true), S0(3), Cl(3));
      FullAdder(v, Tie(false), S0(3), Cl(2), SO(3), CO(3));
    } else if pos == 4 {
      var add := Addf(Pp(4, 3), Pp(4, 2), Cl(3), SO(4), CO(4));
      assert g == [DotXnor(4, 3), DotAoi(4, 2), add, DotAoi(4, 3), DotXor(4, 2)];
      assert Holds(v, g[0]) && Holds(v, g[1]) && Holds(v, g[2]) && Holds(v, g[3]) && Holds(v, g[4]);
      DotValue(v, 4, 2);
      DotValue(v, 4, 3);
      FullAdder(v, Pp(4, 3), Pp(4, 2), Cl(3), SO(4), CO(4));
    } else if pos == 5 {
      var add := Addf(Pp(5, 3), Tie(true), Tie(false), SO(5), CO(5));
      assert g == [DotXnor(5, 3), add, DotAoi(5, 3)];
      assert Holds(v, g[0]) && Holds(v, g[1]) && Holds(v, g[2]);
      DotValue(v, 5, 3);
      FullAdder(v, Pp(5, 3), Tie(true), Tie(false), SO(5), CO(5));
    } else if pos == 6 {
      assert g == [Assign(CO(6), Tie(false)), Xor2(Aoi(6, 3), SdnBit(4, 0), SO(6)), DotAoi(6, 3)];
      assert Holds(v, g[0]) && Holds(v, g[1]) && Holds(v, g[2]);
      SignOnSumPin(v);
    } else {
      assert Holds(v, g[0]) && Holds(v, g[1]);
      TieValues(v, SO(7), Tie(true), CO(7));
    }
  }

  lemma SignOnSumPin(v: Valuation)
    requires !v(Tie(false)) && Holds(v, Assign(CO(6), Tie(false)))
    requires Holds(v, Xor2(Aoi(6, 3), SdnBit(4, 0), SO(6))) && Holds(v, DotAoi(6, 3))
    ensures Num(v, SO(6)) == 1 - Bit(DotAt(v, 6, 3)) && Num(v, CO(6)) == 0
  {
  }

  lemma {:induction false} EndRowSatisfied(v: Valuation, pos: nat, k: nat)
    requires pos < k && Satisfies(v, End(k))
    ensures Satisfies(v, EndRow(pos))
  {
    hide EndRow, Satisfies;
    SatisfiesParts(v, End(k - 1), EndRow(k - 1));
    if pos < k - 1 {
      EndRowSatisfied(v, pos, k - 1);
    }
  }

  lemma {:induction false} EndConservesTo(v: Valuation, k: nat, rows: nat)
    requires k <= rows <= 8 && Satisfies(v, End(rows))
    ensures Outputs(v, k) + Pow2(k) * EndCarry(v, k) == EndColumns(v, k) + (Pow2(k) - 1) + Num(v, CrI)
  {
    hide Num, Satisfies, EndRow, EndColumn, End;
    if k > 0 {
      EndConservesTo(v, k - 1, rows);
      EndRowSatisfied(v, k - 1, rows);
      EndColumnConserves(v, k - 1);
      EndStep(Pow2(k - 1), Num(v, SO(k - 1)) + 2 * Num(v, CO(k - 1)), EndCarry(v, k),
              EndColumn(v, k - 1), EndCarry(v, k - 1));
    }
  }

  lemma EndStep(p: nat, out: nat, carryOut: nat, column: int, carryIn: nat)
    requires out + 2 * carryOut == column + 1 + carryIn
    ensures p * out + 2 * p * carryOut == p * column + p + p * carryIn
  {
    Distribute(out, 2 * carryOut, p);
    Distribute(column + 1, carryIn, p);
    Distribute(column, 1, p);
  }

  lemma FirstEndCell()
    ensures |EndRow(0)| > 0 && EndRow(0)[0] == Assign(ClO, Tie(false))
  {
  }

  /** Value conservation at the signed end: running dots minus sign bits plus a constant that is
      all ones across the block, 255 for eight rows and 127 for the seven-row variant. */
  lemma EndConserves(v: Valuation, rows: nat)
    requires 5 <= rows <= 8 && Satisfies(v, End(rows))
    ensures Outputs(v, rows) == EndColumns(v, rows) + (Pow2(rows) - 1) + Num(v, CrI)
    ensures rows == 8 ==> Pow2(rows) - 1 == 255
    ensures !v(ClO)
  {
    hide Num, End, EndRow;
    EndConservesTo(v, rows, rows);
    EndRowSatisfied(v, 0, rows);
    FirstEndCell();
    assert Holds(v, EndRow(0)[0]);
    assert Pow2(4) == 16;
    Pow2Add(4, 4);
  }

  /** The partial-product bits as the end block forms them: a row's sign bit is inverted. */
  function EndDot(ports: Valuation, pos: nat, b: nat): bool {
    DotAt(ports, pos, b) != (pos == 2 * b)
  }

  function EndSum(ports: Valuation, pos: nat): bool {
    Sum3(EndDot(ports, pos, 3), EndDot(ports, pos, 2), pos >= 3 || EndDot(ports, pos, 1))
  }

  function EndCarryOut(ports: Valuation, pos: nat): bool {
    Carry3(EndDot(ports, pos, 3), EndDot(ports, pos, 2), pos >= 3 || EndDot(ports, pos, 1))
  }

  function EndCarryIn(ports: Valuation, pos: nat): bool {
    if pos == 0 then ports(CrI) else EndCarryOut(ports, pos - 1)
  }

  /** The state an end cornice settles in for given port values. */
  function EndSettled(ports: Valuation): Valuation {
    (w: Wire) => match w
      case Tie(level) => level
      case Pp(pos, b) => EndDot(ports, pos, b)
      case Aoi(pos, b) => DotAt(ports, pos, b) == ports(SdnBit(b + 1, 0))
      case S0(pos) => EndSum(ports, pos)
      case Cl(pos) => EndCarryOut(ports, pos)
      case ClO => false
      case SO(pos) =>
        if pos < 4 then Sum3(if pos == 0 then EndDot(ports, 0, 0) else pos == 1, EndSum(ports, pos), EndCarryIn(ports, pos))
        else if pos == 4 then Sum3(EndDot(ports, 4, 3), EndDot(ports, 4, 2), EndCarryOut(ports, 3))
        else if pos == 5 then !EndDot(ports, 5, 3)
        else if pos == 6 then EndDot(ports, 6, 3)
        else true
      case CO(pos) =>
        if pos < 4 then Carry3(if pos == 0 then EndDot(ports, 0, 0) else pos == 1, EndSum(ports, pos), EndCarryIn(ports, pos))
        else if pos == 4 then Carry3(EndDot(ports, 4, 3), EndDot(ports, 4, 2), EndCarryOut(ports, 3))
        else pos == 5 && EndDot(ports, 5, 3)
      case _ => ports(w)
  }

  lemma EndDotSettles(ports: Valuation, pos: nat, b: nat)
    ensures Holds(EndSettled(ports), DotAoi(pos, b))
    ensures pos != 2 * b ==> Holds(EndSettled(ports), DotXnor(pos, b))
    ensures pos == 2 * b ==> Holds(EndSettled(ports), DotXor(pos, b))
  {
    hide EndSum, EndCarryOut, EndCarryIn, Sum3, Carry3;
    var v := EndSettled(ports);
    assert v(SdnBit(b + 1, 0)) == ports(SdnBit(b + 1, 0));
    assert v(SdnBit(b + 1, 1)) == ports(SdnBit(b + 1, 1));
    assert v(SdnBit(b + 1, 2)) == ports(SdnBit(b + 1, 2));
    assert v(YBit(pos, b, 0)) == ports(YBit(pos, b, 0));
    assert v(YBit(pos, b, 1)) == ports(YBit(pos, b, 1));
    assert v(Aoi(pos, b)) == (DotAt(ports, pos, b) == ports(SdnBit(b + 1, 0)));
    assert v(Pp(pos, b)) == EndDot(ports, pos, b);
  }

  lemma EndSignSettles(ports: Valuation)
    ensures Holds(EndSettled(ports), Xor2(Aoi(6, 3), SdnBit(4, 0), SO(6)))
  {
    hide EndSum, EndCarryOut, EndCarryIn, Sum3, Carry3;
  }

  lemma EndWires(ports: Valuation, pos: nat)
    ensures var v := EndSettled(ports);
            && v(Tie(true)) && !v(Tie(false)) && !v(ClO) && v(CrI) == ports(CrI)
            && (forall b: nat :: v(Pp(pos, b)) == EndDot(ports, pos, b))
            && v(S0(pos)) == EndSum(ports, pos) && v(Cl(pos)) == EndCarryOut(ports, pos)
            && (pos > 0 ==> v(Cl(pos - 1)) == EndCarryOut(ports, pos - 1))
  {
    hide EndSum, EndCarryOut, EndCarryIn, EndDot, Sum3, Carry3;
  }

  lemma EndUpperAdder(ports: Valuation, pos: nat)
    requires pos < 4
    ensures Holds(EndSettled(ports),
                  Addf(Pp(pos, 3), Pp(pos, 2), if pos < 3 then Pp(pos, 1) else Tie(true), S0(pos), Cl(pos)))
  {
    hide EndSettled, EndDot, EndCarryIn, Sum3, Carry3;
    EndWires(ports, pos);
  }

  lemma EndLowerAdder(ports: Valuation, pos: nat)
    requires pos < 4
    ensures Holds(EndSettled(ports),
                  Addf(if pos == 0 then Pp(0, 0) else Tie(pos == 1), S0(pos), if pos > 0 then Cl(pos - 1) else CrI,
                       SO(pos), CO(pos)))
  {
    hide EndDot, EndSum, EndCarryOut, Sum3, Carry3;
    EndWires(ports, pos);
    var v, a := EndSettled(ports), if pos == 0 then EndDot(ports, 0, 0) else pos == 1;
    assert v(SO(pos)) == Sum3(a, EndSum(ports, pos), EndCarryIn(ports, pos));
    assert v(CO(pos)) == Carry3(a, EndSum(ports, pos), EndCarryIn(ports, pos));
  }

  lemma EndMiddleAdder(ports: Valuation)
    ensures Holds(EndSettled(ports), Addf(Pp(4, 3), Pp(4, 2), Cl(3), SO(4), CO(4)))
  {
    hide EndDot, EndSum, EndCarryOut, EndCarryIn, Sum3, Carry3;
  }

  lemma EndTopAdders(ports: Valuation)
    ensures Holds(EndSettled(ports), Addf(Pp(5, 3), Tie(true), Tie(false), SO(5), CO(5)))
    ensures Holds(EndSettled(ports), Assign(CO(6), Tie(false)))
    ensures Holds(EndSettled(ports), Assign(CO(7), Tie(false))) && Holds(EndSettled(ports), Assign(SO(7), Tie(true)))
    ensures Holds(EndSettled(ports), Assign(ClO, Tie(false)))
  {
    hide EndDot, EndSum, EndCarryOut, EndCarryIn;
  }

  lemma EndRowSettles(ports: Valuation, pos: nat)
    requires pos < 8
    ensures Satisfies(EndSettled(ports), EndRow(pos))
  {
    hide DotAoi, DotXnor, DotXor, SdnBit, Holds, EndSettled;
    EndWires(ports, pos);
    EndSignSettles(ports);
    EndMiddleAdder(ports);
    EndTopAdders(ports);
    EndDotSettles(ports, pos, 0);
    EndDotSettles(ports, pos, 1);
    EndDotSettles(ports, pos, 2);
    EndDotSettles(ports, pos, 3);
    if pos < 4 {
      EndUpperAdder(ports, pos);
      EndLowerAdder(ports, pos);
    }
    EndCells(EndSettled(ports), pos);
  }

  predicate EndDotHolds(v: Valuation, pos: nat, b: nat) {
    Holds(v, DotAoi(pos, b)) && Holds(v, if pos == 2 * b then DotXor(pos, b) else DotXnor(pos, b))
  }

  /** The cells an end row may have hold. */
  predicate EndCellsHold(v: Valuation, pos: nat) {
    && v(Tie(true)) && !v(Tie(false)) && Holds(v, Assign(ClO, Tie(false)))
    && EndDotHolds(v, pos, 0) && EndDotHolds(v, pos, 1) && EndDotHolds(v, pos, 2) && EndDotHolds(v, pos, 3)
    && (pos < 4 ==> Holds(v, Addf(Pp(pos, 3), Pp(pos, 2), if pos < 3 then Pp(pos, 1) else Tie(true), S0(pos), Cl(pos))))
    && (pos < 4 ==> Holds(v, Addf(if pos == 0 then Pp(0, 0) else Tie(pos == 1), S0(pos),
                                  if pos > 0 then Cl(pos - 1) else CrI, SO(pos), CO(pos))))
    && Holds(v, Addf(Pp(4, 3), Pp(4, 2), Cl(3), SO(4), CO(4)))
    && Holds(v, Addf(Pp(5, 3), Tie(true), Tie(false), SO(5), CO(5)))
    && Holds(v, Assign(CO(6), Tie(false))) && Holds(v, Xor2(Aoi(6, 3), SdnBit(4, 0), SO(6)))
    && Holds(v, Assign(CO(7), Tie(false))) && Holds(v, Assign(SO(7), Tie(true)))
  }

  lemma EndCells(v: Valuation, pos: nat)
    requires pos < 8 && EndCellsHold(v, pos)
    ensures Satisfies(v, EndRow(pos))
  {
    hide EndNear, EndFar, Holds, Satisfies, DotAoi, DotXnor, DotXor, SdnBit;
    EndNearCells(v, pos);
    EndFarCells(v, pos);
    SatisfiesParts(v, EndNear(pos), EndFar(pos));
  }

  lemma EndNearCells(v: Valuation, pos: nat)
    requires pos < 8 && EndCellsHold(v, pos)
    ensures Satisfies(v, EndNear(pos))
  {
    hide DotAoi, DotXnor, DotXor, SdnBit, Holds;
    var g := EndNear(pos);
    if pos < 3 {
      assert forall i :: 0 <= i < |g| ==> Holds(v, g[i]);
    } else if pos < 5 {
      assert forall i :: 0 <= i < |g| ==> Holds(v, g[i]);
    } else {
      assert forall i :: 0 <= i < |g| ==> Holds(v, g[i]);
    }
  }

  lemma EndFarCells(v: Valuation, pos: nat)
    requires pos < 8 && EndCellsHold(v, pos)
    ensures Satisfies(v, EndFar(pos))
  {
    hide DotAoi, DotXnor, DotXor, SdnBit, Holds;
    var g := EndFar(pos);
    assert forall i :: 0 <= i < |g| ==> Holds(v, g[i]);
  }

  /** The end block has a stable state for every port value. */
  lemma {:induction false} EndSettles(ports: Valuation, k: nat)
    requires k <= 8
    ensures Satisfies(EndSettled(ports), End(k))
  {
    hide EndRow, EndSettled;
    if k > 0 {
      EndSettles(ports, k - 1);
      EndRowSettles(ports, k - 1);
      SatisfiesParts(EndSettled(ports), End(k - 1), EndRow(k - 1));
    } else {
      EndRowSettles(ports, 0);
    }
  }
}
