/** bsg_mesh_to_ring_stitch: orders the cells of a mesh so that consecutive cells, and the last
    and the first, are neighbours, and wires the mesh into the ring that order describes. */
module MeshRing {
  import opened Powers
  import opened Wrappers

  datatype Cell = Cell(x: nat, y: nat)

  predicate InGrid(c: Cell, maxX: nat, maxY: nat) {
    c.x < maxX && c.y < maxY
  }

  predicate Adjacent(a: Cell, b: Cell) {
    Abs(a.x - b.x) + Abs(a.y - b.y) == 1
  }

  /** Index after k in a ring of n. */
  function After(k: nat, n: nat): nat {
    if k + 1 >= n then 0 else k + 1
  }

  function Before(k: nat, n: nat): nat {
    if k == 0 then if n == 0 then 0 else n - 1 else k - 1
  }

  /** order is a Hamiltonian cycle of the grid: every cell exactly once, each next to the one after it. */
  ghost predicate Hamiltonian(order: seq<Cell>, maxX: nat, maxY: nat) {
    && |order| == maxX * maxY
    && (forall i :: 0 <= i < |order| ==> InGrid(order[i], maxX, maxY))
    && (forall i, j :: 0 <= i < j < |order| ==> order[i] != order[j])
    && (forall c :: InGrid(c, maxX, maxY) ==> c in order)
    && (forall i :: 0 <= i < |order| ==> Adjacent(order[i], order[After(i, |order|)]))
  }

  lemma RingStep(order: seq<Cell>, maxX: nat, maxY: nat, i: nat)
    requires Hamiltonian(order, maxX, maxY) && i < |order|
    ensures |order| == maxX * maxY && After(i, |order|) < |order| && InGrid(order[i], maxX, maxY)
    ensures Adjacent(order[i], order[After(i, |order|)])
  {
  }

  lemma RingVisits(order: seq<Cell>, maxX: nat, maxY: nat, c: Cell) returns (i: nat)
    requires Hamiltonian(order, maxX, maxY) && InGrid(c, maxX, maxY)
    ensures c in order && i < |order| && order[i] == c
  {
    assert c in order;
    i :| i < |order| && order[i] == c;
  }

  lemma RingInjective(order: seq<Cell>, maxX: nat, maxY: nat, i: nat, j: nat)
    requires Hamiltonian(order, maxX, maxY) && i < |order| && j < |order|
    ensures order[i] == order[j] ==> i == j
  {
    assert i < j ==> order[i] != order[j];
    assert j < i ==> order[j] != order[i];
  }

  // ----- the construction for an even number of columns ---------------------

  /** Where cell c stands: columns 0, 1, 2, ... are traversed up and down above row 0, then row 0
      leads back. */
  function Position(maxX: nat, maxY: nat, c: Cell): nat
    requires maxY >= 2 && InGrid(c, maxX, maxY)
  {
    if c.y == 0 then ColumnStart(maxY, maxX) + (maxX - 1 - c.x)
    else ColumnStart(maxY, c.x) + (if c.x % 2 == 0 then c.y - 1 else maxY - 1 - c.y)
  }

  function ColumnStart(maxY: nat, x: nat): nat
    requires maxY >= 1
  {
    x * (maxY - 1)
  }

  lemma ColumnStarts(maxY: nat, x: nat)
    requires maxY >= 1
    ensures ColumnStart(maxY, 0) == 0 && ColumnStart(maxY, x + 1) == ColumnStart(maxY, x) + (maxY - 1)
  {
    Distribute(x, 1, maxY - 1);
  }

  lemma AllColumns(maxX: nat, maxY: nat)
    requires maxY >= 1
    ensures ColumnStart(maxY, maxX) + maxX == maxX * maxY
  {
    Distribute(maxY - 1, 1, maxX);
  }

  /** The inverse: the cell at position k. */
  function CellAt(maxX: nat, maxY: nat, k: nat): Cell
    requires maxY >= 2 && k < maxX * maxY
  {
    var h := maxY - 1;
    if k < maxX * h then
      Cell(k / h, if k / h % 2 == 0 then k % h + 1 else h - k % h)
    else
      assert maxX * maxY == maxX * h + maxX;
      Cell(maxX - 1 - (k - maxX * h), 0)
  }

  lemma InColumn(x: nat, maxX: nat, h: nat, r: nat)
    requires x < maxX && r < h
    ensures (x * h + r) / h == x && (x * h + r) % h == r && x * h + r < maxX * h
  {
    DivModUnique(x * h + r, h, x, r);
    MulMonotone(x + 1, maxX, h);
    Distribute(x, 1, h);
  }

  lemma ColumnOf(k: nat, maxX: nat, h: nat)
    requires h >= 1 && k < maxX * h
    ensures k / h < maxX && k == k / h * h + k % h
  {
    if k / h >= maxX {
      MulMonotone(maxX, k / h, h);
    }
  }

  lemma CellInColumn(maxX: nat, maxY: nat, x: nat, r: nat)
    requires maxY >= 2 && x < maxX && r < maxY - 1
    ensures x * (maxY - 1) + r < maxX * (maxY - 1) < maxX * maxY
    ensures CellAt(maxX, maxY, x * (maxY - 1) + r) == Cell(x, if x % 2 == 0 then r + 1 else maxY - 1 - r)
  {
    InColumn(x, maxX, maxY - 1, r);
    CellCount(maxX, maxY);
  }

  lemma CellInRow(maxX: nat, maxY: nat, j: nat)
    requires maxY >= 2 && j < maxX
    ensures maxX * (maxY - 1) + j < maxX * maxY == maxX * (maxY - 1) + maxX
    ensures CellAt(maxX, maxY, maxX * (maxY - 1) + j) == Cell(maxX - 1 - j, 0)
  {
    CellCount(maxX, maxY);
  }

  lemma PositionInverse(maxX: nat, maxY: nat, c: Cell)
    requires maxY >= 2 && InGrid(c, maxX, maxY)
    ensures Position(maxX, maxY, c) < maxX * maxY && CellAt(maxX, maxY, Position(maxX, maxY, c)) == c
  {
    hide CellAt;
    if c.y > 0 {
      CellInColumn(maxX, maxY, c.x, if c.x % 2 == 0 then c.y - 1 else maxY - 1 - c.y);
    } else {
      CellInRow(maxX, maxY, maxX - 1 - c.x);
    }
  }

  lemma CellAtInverse(maxX: nat, maxY: nat, k: nat)
    requires maxY >= 2 && k < maxX * maxY
    ensures InGrid(CellAt(maxX, maxY, k), maxX, maxY) && Position(maxX, maxY, CellAt(maxX, maxY, k)) == k
  {
    hide CellAt;
    var h := maxY - 1;
    CellCount(maxX, maxY);
    if k < maxX * h {
      ColumnOf(k, maxX, h);
      CellInColumn(maxX, maxY, k / h, k % h);
    } else {
      CellInRow(maxX, maxY, k - maxX * h);
    }
  }

  lemma NextInColumns(maxX: nat, maxY: nat, x: nat, r: nat)
    requires maxX >= 2 && maxX % 2 == 0 && maxY >= 2 && x < maxX && r < maxY - 1
    ensures x * (maxY - 1) + r + 1 < maxX * maxY
    ensures Adjacent(CellAt(maxX, maxY, x * (maxY - 1) + r), CellAt(maxX, maxY, x * (maxY - 1) + r + 1))
  {
    hide CellAt;
    CellInColumn(maxX, maxY, x, r);
    Distribute(x, 1, maxY - 1);
    if r + 1 < maxY - 1 {
      CellInColumn(maxX, maxY, x, r + 1);
    } else if x + 1 < maxX {
      CellInColumn(maxX, maxY, x + 1, 0);
    } else {
      CellInRow(maxX, maxY, 0);
    }
  }

  lemma CellCount(maxX: nat, maxY: nat)
    requires maxY >= 1
    ensures maxX * maxY == maxX * (maxY - 1) + maxX
  {
    Distribute(maxY - 1, 1, maxX);
  }

  lemma NextInRow(maxX: nat, maxY: nat, j: nat)
    requires maxX >= 2 && maxY >= 2 && j < maxX
    ensures var k := maxX * (maxY - 1) + j;
            && k < maxX * maxY && After(k, maxX * maxY) < maxX * maxY
            && Adjacent(CellAt(maxX, maxY, k), CellAt(maxX, maxY, After(k, maxX * maxY)))
  {
    hide CellAt;
    CellInRow(maxX, maxY, j);
    if j + 1 < maxX {
      CellInRow(maxX, maxY, j + 1);
    } else {
      CellInColumn(maxX, maxY, 0, 0);
    }
  }

  lemma NextAdjacent(maxX: nat, maxY: nat, k: nat)
    requires maxX >= 2 && maxX % 2 == 0 && maxY >= 2 && k < maxX * maxY
    ensures After(k, maxX * maxY) < maxX * maxY
    ensures Adjacent(CellAt(maxX, maxY, k), CellAt(maxX, maxY, After(k, maxX * maxY)))
  {
    hide CellAt, Adjacent;
    CellCount(maxX, maxY);
    if k < maxX * (maxY - 1) {
      ColumnOf(k, maxX, maxY - 1);
      NextInColumns(maxX, maxY, k / (maxY - 1), k % (maxY - 1));
    } else {
      NextInRow(maxX, maxY, k - maxX * (maxY - 1));
    }
  }

  /** The order built so far agrees with CellAt. */
  predicate Follows(order: seq<Cell>, maxX: nat, maxY: nat)
    requires maxY >= 2
  {
    |order| <= maxX * maxY && forall i :: 0 <= i < |order| ==> order[i] == CellAt(maxX, maxY, i)
  }

  lemma Extend(order: seq<Cell>, maxX: nat, maxY: nat, c: Cell)
    requires maxY >= 2 && InGrid(c, maxX, maxY) && Follows(order, maxX, maxY)
    requires |order| == Position(maxX, maxY, c)
    ensures Follows(order + [c], maxX, maxY)
  {
    PositionInverse(maxX, maxY, c);
  }

  lemma PositionUp(maxX: nat, maxY: nat, x: nat, y: nat)
    requires 0 < y < maxY && x < maxX && x % 2 == 0
    ensures Position(maxX, maxY, Cell(x, y)) == ColumnStart(maxY, x) + (y - 1)
  {
  }

  lemma PositionDown(maxX: nat, maxY: nat, x: nat, y: nat)
    requires 0 < y < maxY && x < maxX && x % 2 == 1
    ensures Position(maxX, maxY, Cell(x, y)) == ColumnStart(maxY, x) + (maxY - 1 - y)
  {
  }

  lemma PositionBack(maxX: nat, maxY: nat, x: nat)
    requires maxY >= 2 && x < maxX
    ensures Position(maxX, maxY, Cell(x, 0)) == ColumnStart(maxY, maxX) + (maxX - 1 - x)
  {
  }

  lemma FollowsNothing(maxX: nat, maxY: nat)
    requires maxY >= 2
    ensures Follows([], maxX, maxY) && Follows(Flipped([]), maxX, maxY)
  {
  }

  predicate Even(n: nat) {
    n % 2 == 0
  }

  lemma BothEven(n: nat)
    requires n % 2 == 0
    ensures Even(0) && Even(n)
  {
  }

  /** A pair of columns: up the first, down the second. */
  lemma NextPair(x: nat, max: nat)
    requires Even(x) && Even(max) && x < max
    ensures Even(x + 2) && x + 1 < max && x % 2 == 0 && (x + 1) % 2 == 1
  {
  }

  lemma ExtendUp(order: seq<Cell>, maxX: nat, maxY: nat, x: nat, y: nat)
    requires x < maxX && x % 2 == 0 && 0 < y < maxY && Follows(order, maxX, maxY)
    requires |order| == ColumnStart(maxY, x) + (y - 1)
    ensures Follows(order + [Cell(x, y)], maxX, maxY)
  {
    hide CellAt, ColumnStart, Follows;
    PositionUp(maxX, maxY, x, y);
    Extend(order, maxX, maxY, Cell(x, y));
  }

  lemma ExtendDown(order: seq<Cell>, maxX: nat, maxY: nat, x: nat, y: nat)
    requires x < maxX && x % 2 == 1 && 0 < y < maxY && Follows(order, maxX, maxY)
    requires |order| == ColumnStart(maxY, x) + (maxY - 1 - y)
    ensures Follows(order + [Cell(x, y)], maxX, maxY)
  {
    hide CellAt, ColumnStart, Follows;
    PositionDown(maxX, maxY, x, y);
    Extend(order, maxX, maxY, Cell(x, y));
  }

  lemma ExtendHome(order: seq<Cell>, maxX: nat, maxY: nat, x: nat)
    requires x < maxX && maxY >= 2 && Follows(order, maxX, maxY)
    requires |order| == ColumnStart(maxY, maxX) + (maxX - 1 - x)
    ensures Follows(order + [Cell(x, 0)], maxX, maxY)
  {
    hide CellAt, ColumnStart, Follows;
    PositionBack(maxX, maxY, x);
    Extend(order, maxX, maxY, Cell(x, 0));
  }

  /** First construction of the script. */
  method EvenColumnsOrder(maxX: nat, maxY: nat) returns (order: seq<Cell>)
    requires maxX >= 2 && maxX % 2 == 0 && maxY >= 2
    ensures |order| == ColumnStart(maxY, maxX) + maxX && Follows(order, maxX, maxY)
  {
    hide ColumnStart, Follows, Even;
    order := [];
    assert Even(0) && Even(maxX) by {
      BothEven(maxX);
    }
    ColumnStarts(maxY, maxX);
    FollowsNothing(maxX, maxY);
    var x := 0;
    while x < maxX
      invariant x <= maxX && Even(x)
      invariant Follows(order, maxX, maxY) && |order| == ColumnStart(maxY, x)
    {
      NextPair(x, maxX);
      var y := 1;
      while y < maxY
        invariant 1 <= y <= maxY
        invariant Follows(order, maxX, maxY) && |order| == ColumnStart(maxY, x) + (y - 1)
      {
        ExtendUp(order, maxX, maxY, x, y);
        order := order + [Cell(x, y)];
        y := y + 1;
      }
      ColumnStarts(maxY, x);
      ColumnStarts(maxY, x + 1);
      y := maxY - 1;
      while y > 0
        invariant 0 <= y < maxY
        invariant Follows(order, maxX, maxY) && |order| == ColumnStart(maxY, x + 1) + (maxY - 1 - y)
      {
        ExtendDown(order, maxX, maxY, x + 1, y);
        order := order + [Cell(x + 1, y)];
        y := y - 1;
      }
      x := x + 2;
    }
    var i := maxX;
    while i > 0
      invariant 0 <= i <= maxX
      invariant Follows(order, maxX, maxY) && |order| == ColumnStart(maxY, maxX) + (maxX - i)
    {
      i := i - 1;
      ExtendHome(order, maxX, maxY, i);
      order := order + [Cell(i, 0)];
    }
  }

  lemma FollowsIsHamiltonian(order: seq<Cell>, maxX: nat, maxY: nat)
    requires maxX >= 2 && maxX % 2 == 0 && maxY >= 2
    requires |order| == maxX * maxY && Follows(order, maxX, maxY)
    ensures Hamiltonian(order, maxX, maxY)
  {
    hide CellAt, Position, Adjacent;
    forall i | 0 <= i < |order|
      ensures InGrid(order[i], maxX, maxY) && Adjacent(order[i], order[After(i, |order|)])
    {
      CellAtInverse(maxX, maxY, i);
      NextAdjacent(maxX, maxY, i);
    }
    forall i, j | 0 <= i < j < |order| ensures order[i] != order[j] {
      CellAtInverse(maxX, maxY, i);
      CellAtInverse(maxX, maxY, j);
    }
    forall c | InGrid(c, maxX, maxY) ensures c in order {
      PositionInverse(maxX, maxY, c);
      assert order[Position(maxX, maxY, c)] == c;
    }
  }

  // ----- the construction for an even number of rows ------------------------

  function Flip(c: Cell): Cell {
    Cell(c.y, c.x)
  }

  function Flipped(order: seq<Cell>): (r: seq<Cell>)
    ensures |r| == |order|
  {
    seq(|order|, i requires 0 <= i < |order| => Flip(order[i]))
  }

  /** Reflecting the grid reflects its rings. */
  lemma FlipHamiltonian(order: seq<Cell>, maxX: nat, maxY: nat)
    requires Hamiltonian(order, maxX, maxY)
    ensures Hamiltonian(Flipped(order), maxY, maxX)
  {
    var r := Flipped(order);
    assert maxX * maxY == maxY * maxX;
    forall c | InGrid(c, maxY, maxX) ensures c in r {
      assert Flip(c) in order;
      var i :| 0 <= i < |order| && order[i] == Flip(c);
      assert r[i] == c;
    }
    forall i | 0 <= i < |r| ensures Adjacent(r[i], r[After(i, |r|)]) {
      assert Adjacent(order[i], order[After(i, |order|)]);
    }
  }

  /** Second construction of the script: rows take the part of columns. */
  method EvenRowsOrder(maxX: nat, maxY: nat) returns (order: seq<Cell>)
    requires maxX >= 2 && maxY >= 2 && maxY % 2 == 0
    ensures |order| == ColumnStart(maxX, maxY) + maxY && Follows(Flipped(order), maxY, maxX)
  {
    hide ColumnStart, Flipped, Follows, Even;
    order := [];
    assert Even(0) && Even(maxY) by {
      BothEven(maxY);
    }
    ColumnStarts(maxX, maxY);
    FollowsNothing(maxY, maxX);
    var y := 0;
    while y < maxY
      invariant y <= maxY && Even(y)
      invariant Follows(Flipped(order), maxY, maxX) && |order| == ColumnStart(maxX, y)
    {
      NextPair(y, maxY);
      var x := 1;
      while x < maxX
        invariant 1 <= x <= maxX
        invariant Follows(Flipped(order), maxY, maxX) && |order| == ColumnStart(maxX, y) + (x - 1)
      {
        ExtendRight(order, maxX, maxY, x, y);
        order := order + [Cell(x, y)];
        x := x + 1;
      }
      ColumnStarts(maxX, y);
      ColumnStarts(maxX, y + 1);
      x := maxX - 1;
      while x > 0
        invariant 0 <= x < maxX
        invariant Follows(Flipped(order), maxY, maxX) && |order| == ColumnStart(maxX, y + 1) + (maxX - 1 - x)
      {
        ExtendLeft(order, maxX, maxY, x, y + 1);
        order := order + [Cell(x, y + 1)];
        x := x - 1;
      }
      y := y + 2;
    }
    var i := maxY;
    while i > 0
      invariant 0 <= i <= maxY
      invariant Follows(Flipped(order), maxY, maxX) && |order| == ColumnStart(maxX, maxY) + (maxY - i)
    {
      i := i - 1;
      ExtendBack(order, maxX, maxY, i);
      order := order + [Cell(0, i)];
    }
  }

  lemma ExtendRight(order: seq<Cell>, maxX: nat, maxY: nat, x: nat, y: nat)
    requires 0 < x < maxX && y < maxY && y % 2 == 0 && Follows(Flipped(order), maxY, maxX)
    requires |order| == ColumnStart(maxX, y) + (x - 1)
    ensures Follows(Flipped(order + [Cell(x, y)]), maxY, maxX)
  {
    hide CellAt, ColumnStart, Follows, Flipped;
    PositionUp(maxY, maxX, y, x);
    ExtendFlipped(order, maxX, maxY, Cell(x, y));
  }

  lemma ExtendLeft(order: seq<Cell>, maxX: nat, maxY: nat, x: nat, y: nat)
    requires 0 < x < maxX && y < maxY && y % 2 == 1 && Follows(Flipped(order), maxY, maxX)
    requires |order| == ColumnStart(maxX, y) + (maxX - 1 - x)
    ensures Follows(Flipped(order + [Cell(x, y)]), maxY, maxX)
  {
    hide CellAt, ColumnStart, Follows, Flipped;
    PositionDown(maxY, maxX, y, x);
    ExtendFlipped(order, maxX, maxY, Cell(x, y));
  }

  lemma ExtendBack(order: seq<Cell>, maxX: nat, maxY: nat, y: nat)
    requires maxX >= 2 && y < maxY && Follows(Flipped(order), maxY, maxX)
    requires |order| == ColumnStart(maxX, maxY) + (maxY - 1 - y)
    ensures Follows(Flipped(order + [Cell(0, y)]), maxY, maxX)
  {
    hide CellAt, ColumnStart, Follows, Flipped;
    PositionBack(maxY, maxX, y);
    ExtendFlipped(order, maxX, maxY, Cell(0, y));
  }

  lemma ExtendFlipped(order: seq<Cell>, maxX: nat, maxY: nat, c: Cell)
    requires maxX >= 2 && InGrid(c, maxX, maxY) && Follows(Flipped(order), maxY, maxX)
    requires |order| == Position(maxY, maxX, Flip(c))
    ensures Follows(Flipped(order + [c]), maxY, maxX)
  {
    hide CellAt;
    Extend(Flipped(order), maxY, maxX, Flip(c));
    assert Flipped(order + [c]) == Flipped(order) + [Flip(c)];
  }

  // ----- which meshes have a ring -------------------------------------------

  ghost predicate HasRing(maxX: nat, maxY: nat) {
    exists order :: Hamiltonian(order, maxX, maxY)
  }

  /** Colour of a cell on a checkerboard. */
  function Colour(c: Cell): nat {
    (c.x + c.y) % 2
  }

  lemma NeighbourColour(a: Cell, b: Cell)
    requires Adjacent(a, b)
    ensures Colour(a) != Colour(b)
  {
    assert b.x + b.y == a.x + a.y + 1 || b.x + b.y + 1 == a.x + a.y;
  }

  /** Walking the ring alternates the colours. */
  lemma {:induction false} Alternates(order: seq<Cell>, maxX: nat, maxY: nat, k: nat)
    requires Hamiltonian(order, maxX, maxY) && k < |order|
    ensures Colour(order[k]) == (Colour(order[0]) + k) % 2
  {
    hide Hamiltonian, Adjacent, Colour;
    if k > 0 {
      Alternates(order, maxX, maxY, k - 1);
      RingStep(order, maxX, maxY, k - 1);
      NeighbourColour(order[k - 1], order[k]);
      OtherParity(Colour(order[0]), k);
      ColourRange(order[k]);
    } else {
      ColourRange(order[0]);
    }
  }

  lemma ColourRange(c: Cell)
    ensures Colour(c) < 2 && (Colour(c) + 0) % 2 == Colour(c)
  {
  }

  lemma OtherParity(c: nat, k: nat)
    requires k > 0
    ensures (c + k) % 2 == 1 - (c + (k - 1)) % 2
  {
  }

  lemma RingSize(order: seq<Cell>, maxX: nat, maxY: nat)
    requires Hamiltonian(order, maxX, maxY)
    ensures |order| == maxX * maxY
  {
  }

  lemma OddIsNoRing(order: seq<Cell>, maxX: nat, maxY: nat)
    requires maxX * maxY % 2 == 1
    ensures !Hamiltonian(order, maxX, maxY)
  {
    hide Adjacent, Hamiltonian;
    if Hamiltonian(order, maxX, maxY) {
      RingSize(order, maxX, maxY);
      var last: nat := |order| - 1;
      Alternates(order, maxX, maxY, last);
      RingStep(order, maxX, maxY, last);
      NeighbourColour(order[last], order[0]);
    }
  }

  /** The header's "both X and Y coordinates cannot be odd". */
  lemma NoRingOddByOdd(maxX: nat, maxY: nat)
    requires maxX % 2 == 1 && maxY % 2 == 1
    ensures !HasRing(maxX, maxY)
  {
    OddProduct(maxX, maxY);
    forall order ensures !Hamiltonian(order, maxX, maxY) {
      OddIsNoRing(order, maxX, maxY);
    }
  }

  lemma OddProduct(a: nat, b: nat)
    requires a % 2 == 1 && b % 2 == 1
    ensures a * b % 2 == 1
  {
    var i, j := a / 2, b / 2;
    assert a * b == 2 * (2 * i * j + i + j) + 1 by {
      assert (2 * i + 1) * (2 * j + 1) == 4 * (i * j) + 2 * i + 2 * j + 1;
    }
  }

  lemma LineIsNoRing(order: seq<Cell>, maxX: nat)
    requires maxX >= 3
    ensures !Hamiltonian(order, maxX, 1)
  {
    hide Hamiltonian;
    if Hamiltonian(order, maxX, 1) {
      var i := RingVisits(order, maxX, 1, Cell(0, 0));
      var b, a := Before(i, |order|), After(i, |order|);
      RingStep(order, maxX, 1, i);
      RingStep(order, maxX, 1, b);
      RingStep(order, maxX, 1, a);
      RingInjective(order, maxX, 1, a, b);
    }
  }

  /** A single row of three or more has no ring: its end cell has only one neighbour. */
  lemma NoRingInLine(maxX: nat)
    requires maxX >= 3
    ensures !HasRing(maxX, 1)
  {
    forall order ensures !Hamiltonian(order, maxX, 1) {
      LineIsNoRing(order, maxX);
    }
  }

  lemma FlipHasRing(maxX: nat, maxY: nat)
    requires HasRing(maxX, maxY)
    ensures HasRing(maxY, maxX)
  {
    var order :| Hamiltonian(order, maxX, maxY);
    FlipHamiltonian(order, maxX, maxY);
  }

  /** The sizes for which the script emits a configuration. */
  predicate Emitted(maxX: nat, maxY: nat) {
    || (maxX >= 2 && maxX % 2 == 0 && maxY >= 2)
    || (maxX >= 3 && maxX % 2 == 1 && maxY >= 2 && maxY % 2 == 0)
    || (maxX == 1 && maxY == 2)
    || (maxX == 2 && maxY == 1)
  }

  /** The order the script passes to print_config for a size, if it emits one. */
  method StitchOrder(maxX: nat, maxY: nat) returns (r: Option<seq<Cell>>)
    ensures r.Some? <==> Emitted(maxX, maxY)
    ensures r.Some? ==> Hamiltonian(r.value, maxX, maxY)
    ensures r.Some? ==> (IdsFollowRing(r.value, maxX, maxY) <==> maxX <= 2 || maxY <= 2)
  {
    hide Hamiltonian, IdsFollowRing, Follows, ColumnStart;
    if maxX >= 2 && maxX % 2 == 0 && maxY >= 2 {
      var order := EvenColumnsOrder(maxX, maxY);
      ColumnsStitch(order, maxX, maxY);
      return Some(order);
    } else if maxX >= 3 && maxX % 2 == 1 && maxY >= 2 && maxY % 2 == 0 {
      var order := EvenRowsOrder(maxX, maxY);
      RowsStitch(order, maxX, maxY);
      return Some(order);
    } else if maxX == 1 && maxY == 2 {
      TwoStitch();
      return Some([Cell(0, 0), Cell(0, 1)]);
    } else if maxX == 2 && maxY == 1 {
      TwoStitch();
      return Some([Cell(0, 0), Cell(1, 0)]);
    } else {
      return None;
    }
  }

  lemma ColumnsStitch(order: seq<Cell>, maxX: nat, maxY: nat)
    requires maxX >= 2 && maxX % 2 == 0 && maxY >= 2
    requires |order| == ColumnStart(maxY, maxX) + maxX && Follows(order, maxX, maxY)
    ensures Hamiltonian(order, maxX, maxY) && (IdsFollowRing(order, maxX, maxY) <==> maxX <= 2 || maxY <= 2)
  {
    hide Hamiltonian, IdsFollowRing, Follows, ColumnStart;
    AllColumns(maxX, maxY);
    FollowsIsHamiltonian(order, maxX, maxY);
    ColumnIdsFollow(order, maxX, maxY);
  }

  lemma RowsStitch(order: seq<Cell>, maxX: nat, maxY: nat)
    requires maxX >= 2 && maxY >= 2 && maxY % 2 == 0
    requires |order| == ColumnStart(maxX, maxY) + maxY && Follows(Flipped(order), maxY, maxX)
    ensures Hamiltonian(order, maxX, maxY) && (IdsFollowRing(order, maxX, maxY) <==> maxX <= 2 || maxY <= 2)
  {
    hide Hamiltonian, IdsFollowRing, Follows, ColumnStart, Flipped;
    FlippedTwice(order);
    ColumnsStitch(Flipped(order), maxY, maxX);
    FlipHamiltonian(Flipped(order), maxY, maxX);
    FlippedIdsFollow(Flipped(order), maxY, maxX);
  }

  lemma FlippedTwice(order: seq<Cell>)
    ensures Flipped(Flipped(order)) == order && |Flipped(order)| == |order|
  {
  }

  lemma TwoStitch()
    ensures Hamiltonian([Cell(0, 0), Cell(0, 1)], 1, 2) && IdsFollowRing([Cell(0, 0), Cell(0, 1)], 1, 2)
    ensures Hamiltonian([Cell(0, 0), Cell(1, 0)], 2, 1) && IdsFollowRing([Cell(0, 0), Cell(1, 0)], 2, 1)
  {
    hide Hamiltonian, IdsFollowRing;
    TwoCells();
    TwoIds();
    FlipHamiltonian([Cell(0, 0), Cell(0, 1)], 1, 2);
    FlippedIdsFollow([Cell(0, 0), Cell(0, 1)], 1, 2);
    assert Flipped([Cell(0, 0), Cell(0, 1)]) == [Cell(0, 0), Cell(1, 0)];
  }

  lemma TwoCells()
    ensures Hamiltonian([Cell(0, 0), Cell(0, 1)], 1, 2)
  {
    var order := [Cell(0, 0), Cell(0, 1)];
    forall c | InGrid(c, 1, 2) ensures c in order {
      assert c == order[c.y];
    }
  }

  lemma TwoIds()
    ensures IdsFollowRing([Cell(0, 0), Cell(0, 1)], 1, 2)
  {
    hide IdOf;
    var order := [Cell(0, 0), Cell(0, 1)];
    TwoIdOf(order, 0);
    TwoIdOf(order, 1);
    forall i | 0 <= i < |order| ensures IdOf(order, 1, 2, After(i, |order|)) == After(IdOf(order, 1, 2, i), |order|) {
      assert i in {0, 1};
    }
  }

  lemma TwoIdOf(order: seq<Cell>, i: nat)
    requires order == [Cell(0, 0), Cell(0, 1)] && i < 2
    ensures IdOf(order, 1, 2, i) == 1 - i
  {
    hide IndexOf, Mirror;
    TwoMirror(i);
    TwoIndex(order, 1 - i);
  }

  lemma TwoMirror(i: nat)
    requires i < 2
    ensures Mirror(1, 2, Cell(0, i)) == Cell(0, 1 - i)
  {
  }

  lemma TwoIndex(order: seq<Cell>, i: nat)
    requires order == [Cell(0, 0), Cell(0, 1)] && i < 2
    ensures order[i] == Cell(0, i) && order[i] in order && IndexOf(order, order[i]) == i
  {
    hide Hamiltonian, IndexOf;
    TwoCells();
    IndexUnique(order, 1, 2, i);
  }

  /** A ring exists for every size the script emits. */
  lemma EmittedHasRing(maxX: nat, maxY: nat)
    requires Emitted(maxX, maxY)
    ensures HasRing(maxX, maxY)
  {
    hide CellAt;
    if maxX == 1 || maxY == 1 {
      TwoCells();
      assert HasRing(1, 2);
      FlipHasRing(1, 2);
    } else if maxX % 2 == 0 {
      var order := seq(maxX * maxY, i requires 0 <= i < maxX * maxY => CellAt(maxX, maxY, i));
      FollowsIsHamiltonian(order, maxX, maxY);
    } else {
      assert maxX * maxY == maxY * maxX;
      var order := seq(maxY * maxX, i requires 0 <= i < maxY * maxX => CellAt(maxY, maxX, i));
      FollowsIsHamiltonian(order, maxY, maxX);
      FlipHasRing(maxY, maxX);
    }
  }

  /** The script leaves out no mesh that could be stitched: a non-empty mesh has a ring of
      nearest-neighbour steps if and only if the script emits a configuration for it. */
  lemma RingIffEmitted(maxX: nat, maxY: nat)
    requires maxX >= 1 && maxY >= 1
    ensures HasRing(maxX, maxY) <==> Emitted(maxX, maxY)
  {
    hide Hamiltonian, HasRing;
    if Emitted(maxX, maxY) {
      EmittedHasRing(maxX, maxY);
    } else if maxX % 2 == 1 && maxY % 2 == 1 {
      NoRingOddByOdd(maxX, maxY);
    } else if maxY == 1 {
      NoRingInLine(maxX);
    } else {
      assert maxX == 1 && maxY >= 3;
      NoRingInLine(maxY);
      if HasRing(maxX, maxY) {
        FlipHasRing(maxX, maxY);
      }
    }
  }

  // ----- wiring --------------------------------------------------------------

  /** Both data paths leave src: back to the cell before it, forward to the cell after it. */
  datatype Wiring = Wiring(src: Cell, back: Cell, fwd: Cell)

  function IndexOf(order: seq<Cell>, c: Cell): (i: nat)
    requires c in order
    ensures i < |order| && order[i] == c
  {
    if order[0] == c then 0 else 1 + IndexOf(order[1..], c)
  }

  function Fwd(order: seq<Cell>, c: Cell): Cell
    requires c in order
  {
    order[After(IndexOf(order, c), |order|)]
  }

  function Back(order: seq<Cell>, c: Cell): Cell
    requires c in order
  {
    order[Before(IndexOf(order, c), |order|)]
  }

  lemma IndexUnique(order: seq<Cell>, maxX: nat, maxY: nat, i: nat)
    requires Hamiltonian(order, maxX, maxY) && i < |order|
    ensures order[i] in order && IndexOf(order, order[i]) == i
  {
    RingInjective(order, maxX, maxY, i, IndexOf(order, order[i]));
  }

  /** The two wirings are inverse permutations of the cells, so every input is driven exactly once,
      and both run between neighbours only. */
  lemma WiringsInverse(order: seq<Cell>, maxX: nat, maxY: nat, c: Cell)
    requires Hamiltonian(order, maxX, maxY) && InGrid(c, maxX, maxY)
    ensures c in order && InGrid(Fwd(order, c), maxX, maxY) && InGrid(Back(order, c), maxX, maxY)
    ensures Fwd(order, c) in order && Back(order, Fwd(order, c)) == c
    ensures Back(order, c) in order && Fwd(order, Back(order, c)) == c
    ensures Adjacent(c, Fwd(order, c)) && Adjacent(Back(order, c), c)
  {
    hide Hamiltonian, Adjacent;
    var i := RingVisits(order, maxX, maxY, c);
    var a, b := After(i, |order|), Before(i, |order|);
    RingStep(order, maxX, maxY, i);
    RingStep(order, maxX, maxY, a);
    RingStep(order, maxX, maxY, b);
    IndexUnique(order, maxX, maxY, i);
    IndexUnique(order, maxX, maxY, a);
    IndexUnique(order, maxX, maxY, b);
  }

  /** Where cell c's pair of assignments stands in the emitted text: both coordinates count down. */
  function Slot(maxX: nat, maxY: nat, c: Cell): nat
    requires InGrid(c, maxX, maxY)
  {
    Times(maxY - 1 - c.y, maxX) + (maxX - 1 - c.x)
  }

  lemma SlotBounds(maxX: nat, maxY: nat, c: Cell, d: Cell)
    requires InGrid(c, maxX, maxY) && InGrid(d, maxX, maxY)
    ensures Slot(maxX, maxY, c) < maxX * maxY
    ensures c.y > d.y || (c.y == d.y && c.x > d.x) ==> Slot(maxX, maxY, c) < Slot(maxX, maxY, d)
  {
    MulMonotone(maxY - c.y, maxY, maxX);
    Distribute(maxY - 1 - c.y, 1, maxX);
    if c.y > d.y {
      MulMonotone(maxY - c.y, maxY - 1 - d.y, maxX);
    }
  }

  predicate WiredAt(wires: seq<Wiring>, order: seq<Cell>, maxX: nat, maxY: nat, c: Cell)
    requires InGrid(c, maxX, maxY)
  {
    && c in order && Slot(maxX, maxY, c) < |wires|
    && wires[Slot(maxX, maxY, c)] == Wiring(c, Back(order, c), Fwd(order, c))
  }

  /** Every cell before c in the emission order has its pair. */
  ghost predicate WiredUpTo(wires: seq<Wiring>, order: seq<Cell>, maxX: nat, maxY: nat, c: Cell)
    requires InGrid(c, maxX, maxY)
  {
    && |wires| == Slot(maxX, maxY, c)
    && forall d :: InGrid(d, maxX, maxY) && (d.y > c.y || (d.y == c.y && d.x > c.x)) ==>
                     WiredAt(wires, order, maxX, maxY, d)
  }

  /** What one pass of the inner loop emits. */
  function CellWiring(order: seq<Cell>, position: nat, c: Cell): Wiring
    requires position < |order|
  {
    var below := if (position as int) - 1 < 0 then |order| - 1 else position - 1;
    var above := if position + 1 == |order| then 0 else position + 1;
    Wiring(c, order[below], order[above])
  }

  lemma WiredOneMore(wires: seq<Wiring>, order: seq<Cell>, maxX: nat, maxY: nat, c: Cell)
    requires InGrid(c, maxX, maxY) && WiredUpTo(wires, order, maxX, maxY, c) && c in order
    ensures WiredAt(wires + [CellWiring(order, IndexOf(order, c), c)], order, maxX, maxY, c)
    ensures forall d :: InGrid(d, maxX, maxY) && (d.y > c.y || (d.y == c.y && d.x >= c.x)) ==>
              WiredAt(wires + [CellWiring(order, IndexOf(order, c), c)], order, maxX, maxY, d)
  {
    hide Slot, IndexOf;
    var more := wires + [CellWiring(order, IndexOf(order, c), c)];
    forall d | InGrid(d, maxX, maxY) && (d.y > c.y || (d.y == c.y && d.x >= c.x))
      ensures WiredAt(more, order, maxX, maxY, d)
    {
      if d == c {
        assert more[Slot(maxX, maxY, c)] == Wiring(c, Back(order, c), Fwd(order, c));
      } else {
        assert WiredAt(wires, order, maxX, maxY, d);
        SlotBounds(maxX, maxY, d, c);
      }
    }
  }

  /** print_config: the id matrix, one pair of assignments per cell from the top corner down, and the
      literal assigned to id_o, a group for each column. */
  method PrintConfig(maxX: nat, maxY: nat, order: seq<Cell>)
    returns (id: array2<nat>, wires: seq<Wiring>, literal: seq<seq<nat>>)
    requires Hamiltonian(order, maxX, maxY) && maxX >= 1 && maxY >= 1
    ensures id.Length0 == maxX && id.Length1 == maxY
    ensures forall c :: InGrid(c, maxX, maxY) ==> c in order && id[c.x, c.y] == IndexOf(order, c)
    ensures |wires| == maxX * maxY
    ensures forall c :: InGrid(c, maxX, maxY) ==> WiredAt(wires, order, maxX, maxY, c)
    ensures |literal| == maxX && forall x :: 0 <= x < maxX ==> |literal[x]| == maxY
    ensures forall c :: InGrid(c, maxX, maxY) ==>
              Mirror(maxX, maxY, c) in order && PortId(literal, maxX, maxY, c) == IndexOf(order, Mirror(maxX, maxY, c))
  {
    hide Hamiltonian, WiredAt, IndexOf, Slot, CellWiring;
    id := FillMatrix(maxX, maxY, order);
    literal := PrintIds(id);
    wires := [];
    var y := maxY;
    while y > 0
      modifies {}
      invariant 0 <= y <= maxY && |wires| == (maxY - y) * maxX
      invariant forall d :: InGrid(d, maxX, maxY) && d.y >= y ==> WiredAt(wires, order, maxX, maxY, d)
    {
      y := y - 1;
      var x := maxX;
      while x > 0
        modifies {}
        invariant 0 <= x <= maxX && |wires| == (maxY - 1 - y) * maxX + (maxX - x)
        invariant forall d :: InGrid(d, maxX, maxY) && (d.y > y || (d.y == y && d.x >= x)) ==>
                    WiredAt(wires, order, maxX, maxY, d)
      {
        x := x - 1;
        var c := Cell(x, y);
        SlotIs(maxX, maxY, c);
        WiredOneMore(wires, order, maxX, maxY, c);
        wires := wires + [CellWiring(order, id[x, y], c)];
      }
      Distribute(maxY - 1 - y, 1, maxX);
    }
  }

  /** The printing loops of the literal: first column first, and row 0 first in each. */
  method PrintIds(id: array2<nat>) returns (literal: seq<seq<nat>>)
    ensures |literal| == id.Length0
    ensures forall x :: 0 <= x < id.Length0 ==>
              |literal[x]| == id.Length1 && forall y :: 0 <= y < id.Length1 ==> literal[x][y] == id[x, y]
  {
    literal := [];
    for x := 0 to id.Length0
      modifies {}
      invariant |literal| == x
      invariant forall i :: 0 <= i < x ==>
                  |literal[i]| == id.Length1 && forall y :: 0 <= y < id.Length1 ==> literal[i][y] == id[i, y]
    {
      var group: seq<nat> := [];
      for y := 0 to id.Length1
        modifies {}
        invariant |group| == y && forall j :: 0 <= j < y ==> group[j] == id[x, j]
      {
        group := group + [id[x, y]];
      }
      literal := literal + [group];
    }
  }

  lemma SlotIs(maxX: nat, maxY: nat, c: Cell)
    requires InGrid(c, maxX, maxY)
    ensures Slot(maxX, maxY, c) == (maxY - 1 - c.y) * maxX + (maxX - 1 - c.x)
  {
  }

  method FillMatrix(maxX: nat, maxY: nat, order: seq<Cell>) returns (matrix: array2<nat>)
    requires Hamiltonian(order, maxX, maxY)
    ensures fresh(matrix) && matrix.Length0 == maxX && matrix.Length1 == maxY
    ensures forall c :: InGrid(c, maxX, maxY) ==> c in order && matrix[c.x, c.y] == IndexOf(order, c)
  {
    matrix := new nat[maxX, maxY]((_, _) => 0);
    for position := 0 to |order|
      invariant forall i :: 0 <= i < position ==> matrix[order[i].x, order[i].y] == i
    {
      matrix[order[position].x, order[position].y] := position;
    }
    forall c | InGrid(c, maxX, maxY) ensures c in order && matrix[c.x, c.y] == IndexOf(order, c) {
      assert c in order;
      assert order[IndexOf(order, c)] == c;
    }
  }

  // ----- the ids on the port --------------------------------------------------

  function Mirror(maxX: nat, maxY: nat, c: Cell): Cell
    requires InGrid(c, maxX, maxY)
  {
    Cell(maxX - 1 - c.x, maxY - 1 - c.y)
  }

  /** What id_o carries for cell c: the first element of a concatenation lands at the highest index
      of a packed array, in both dimensions. */
  function PortId(literal: seq<seq<nat>>, maxX: nat, maxY: nat, c: Cell): nat
    requires InGrid(c, maxX, maxY) && |literal| == maxX && forall x :: 0 <= x < maxX ==> |literal[x]| == maxY
  {
    literal[maxX - 1 - c.x][maxY - 1 - c.y]
  }

  /** So the id of the i-th cell of the ring is the position of the cell opposite it. */
  function IdOf(order: seq<Cell>, maxX: nat, maxY: nat, i: nat): nat {
    if i < |order| && InGrid(order[i], maxX, maxY) && Mirror(maxX, maxY, order[i]) in order then
      IndexOf(order, Mirror(maxX, maxY, order[i]))
    else |order|
  }

  lemma MirrorInOrder(order: seq<Cell>, maxX: nat, maxY: nat, i: nat)
    requires Hamiltonian(order, maxX, maxY) && i < |order|
    ensures InGrid(order[i], maxX, maxY) && Mirror(maxX, maxY, order[i]) in order
  {
  }

  /** The ids count along the ring: the cell that fwd_data goes to has the next id. */
  predicate IdsFollowRing(order: seq<Cell>, maxX: nat, maxY: nat) {
    forall i :: 0 <= i < |order| ==>
      IdOf(order, maxX, maxY, After(i, |order|)) == After(IdOf(order, maxX, maxY, i), |order|)
  }

  /** Half a turn of a ring of 2h. */
  function HalfTurn(k: nat, h: nat): nat {
    if k < h then k + h else k - h
  }

  lemma HalfTurnStep(k: nat, h: nat)
    requires k < 2 * h
    ensures HalfTurn(After(k, 2 * h), h) == After(HalfTurn(k, h), 2 * h)
  {
  }

  lemma ClosedIndex(order: seq<Cell>, maxX: nat, maxY: nat, c: Cell)
    requires maxX >= 2 && maxX % 2 == 0 && maxY >= 2 && |order| == maxX * maxY && Follows(order, maxX, maxY)
    requires InGrid(c, maxX, maxY)
    ensures c in order && IndexOf(order, c) == Position(maxX, maxY, c)
  {
    hide CellAt, Position, IndexOf, Hamiltonian;
    FollowsIsHamiltonian(order, maxX, maxY);
    PositionInverse(maxX, maxY, c);
    assert order[Position(maxX, maxY, c)] == c;
    IndexUnique(order, maxX, maxY, Position(maxX, maxY, c));
  }

  /** In a ring that is the border of the mesh the opposite cell is half a turn away. */
  lemma OppositeOnBorder(maxX: nat, maxY: nat, c: Cell)
    requires maxX >= 2 && maxX % 2 == 0 && maxY >= 2 && InGrid(c, maxX, maxY) && (maxX == 2 || maxY == 2)
    ensures Position(maxX, maxY, Mirror(maxX, maxY, c))
         == HalfTurn(Position(maxX, maxY, c), if maxX == 2 then maxY else maxX)
  {
    ColumnStarts(maxY, 0);
    ColumnStarts(maxY, 1);
  }

  /** Elsewhere the step from (1, 1) to (2, 1) goes against the ids. */
  lemma OppositeElsewhere(maxX: nat, maxY: nat)
    requires maxX >= 4 && maxX % 2 == 0 && maxY >= 3
    ensures var k := Position(maxX, maxY, Cell(1, 1));
            && k + 1 == Position(maxX, maxY, Cell(2, 1)) && k + 1 < maxX * maxY
            && Position(maxX, maxY, Cell(maxX - 3, maxY - 2))
               != After(Position(maxX, maxY, Cell(maxX - 2, maxY - 2)), maxX * maxY)
  {
    hide ColumnStart;
    ColumnStarts(maxY, 0);
    ColumnStarts(maxY, 1);
    ColumnStarts(maxY, maxX - 3);
    ColumnStarts(maxY, maxX - 2);
    ColumnStarts(maxY, maxX - 1);
    AllColumns(maxX, maxY);
  }

  lemma ColumnId(order: seq<Cell>, maxX: nat, maxY: nat, i: nat)
    requires maxX >= 2 && maxX % 2 == 0 && maxY >= 2 && |order| == maxX * maxY && Follows(order, maxX, maxY) && i < |order|
    ensures InGrid(order[i], maxX, maxY) && Position(maxX, maxY, order[i]) == i
    ensures IdOf(order, maxX, maxY, i) == Position(maxX, maxY, Mirror(maxX, maxY, order[i]))
  {
    hide CellAt, Position, IndexOf;
    CellAtInverse(maxX, maxY, i);
    ClosedIndex(order, maxX, maxY, Mirror(maxX, maxY, order[i]));
  }

  lemma BorderIdsFollow(order: seq<Cell>, maxX: nat, maxY: nat)
    requires maxX >= 2 && maxX % 2 == 0 && maxY >= 2 && |order| == maxX * maxY && Follows(order, maxX, maxY)
    requires maxX == 2 || maxY == 2
    ensures IdsFollowRing(order, maxX, maxY)
  {
    hide Follows, Position, IdOf, Mirror, HalfTurn;
    var h := if maxX == 2 then maxY else maxX;
    forall i | 0 <= i < |order| ensures IdOf(order, maxX, maxY, i) == HalfTurn(i, h) {
      ColumnId(order, maxX, maxY, i);
      OppositeOnBorder(maxX, maxY, order[i]);
    }
    forall i | 0 <= i < |order|
      ensures IdOf(order, maxX, maxY, After(i, |order|)) == After(IdOf(order, maxX, maxY, i), |order|)
    {
      HalfTurnStep(i, h);
    }
  }

  lemma InnerIdsDoNot(order: seq<Cell>, maxX: nat, maxY: nat)
    requires maxX >= 4 && maxX % 2 == 0 && maxY >= 3 && |order| == maxX * maxY && Follows(order, maxX, maxY)
    ensures !IdsFollowRing(order, maxX, maxY)
  {
    hide CellAt, Position, IdOf;
    var k := Position(maxX, maxY, Cell(1, 1));
    OppositeElsewhere(maxX, maxY);
    PositionInverse(maxX, maxY, Cell(1, 1));
    PositionInverse(maxX, maxY, Cell(2, 1));
    ColumnId(order, maxX, maxY, k);
    ColumnId(order, maxX, maxY, k + 1);
    assert order[k] == Cell(1, 1) && order[k + 1] == Cell(2, 1) && After(k, |order|) == k + 1;
  }

  lemma ColumnIdsFollow(order: seq<Cell>, maxX: nat, maxY: nat)
    requires maxX >= 2 && maxX % 2 == 0 && maxY >= 2 && |order| == maxX * maxY && Follows(order, maxX, maxY)
    ensures IdsFollowRing(order, maxX, maxY) <==> maxX <= 2 || maxY <= 2
  {
    hide Follows, IdsFollowRing;
    if maxX == 2 || maxY == 2 {
      BorderIdsFollow(order, maxX, maxY);
    } else {
      InnerIdsDoNot(order, maxX, maxY);
    }
  }

  lemma FlippedId(order: seq<Cell>, maxX: nat, maxY: nat, i: nat)
    requires Hamiltonian(order, maxX, maxY) && i < |order|
    ensures IdOf(Flipped(order), maxY, maxX, i) == IdOf(order, maxX, maxY, i)
  {
    hide IndexOf, Hamiltonian;
    FlipHamiltonian(order, maxX, maxY);
    MirrorInOrder(order, maxX, maxY, i);
    MirrorInOrder(Flipped(order), maxY, maxX, i);
    var k := IdOf(order, maxX, maxY, i);
    assert Flipped(order)[k] == Mirror(maxY, maxX, Flipped(order)[i]);
    IndexUnique(Flipped(order), maxY, maxX, k);
  }

  lemma FlippedIdsFollow(order: seq<Cell>, maxX: nat, maxY: nat)
    requires Hamiltonian(order, maxX, maxY)
    ensures IdsFollowRing(Flipped(order), maxY, maxX) <==> IdsFollowRing(order, maxX, maxY)
  {
    hide IdOf, Hamiltonian, Flipped;
    FlippedSize(order);
    forall i | 0 <= i < |order| ensures IdOf(Flipped(order), maxY, maxX, i) == IdOf(order, maxX, maxY, i) {
      FlippedId(order, maxX, maxY, i);
    }
  }

  lemma FlippedSize(order: seq<Cell>)
    ensures |Flipped(order)| == |order|
  {
  }
}
