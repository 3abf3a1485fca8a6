/** The 40 by 60 sensor grid, addressed row-major. */
module Grid {
  const ROWS := 40
  const COLS := 60
  const PIXELS := 2400

  function Row(i: nat): nat { i / 60 }
  function Col(i: nat): nat { i % 60 }

  predicate InGrid(r: int, c: int) { 0 <= r < 40 && 0 <= c < 60 }

  function Cell(r: int, c: int): (i: nat)
    requires InGrid(r, c)
    ensures i < PIXELS && Row(i) == r && Col(i) == c
  {
    r * 60 + c
  }

  lemma CellOfRowCol(i: nat)
    requires i < PIXELS
    ensures InGrid(Row(i), Col(i)) && Cell(Row(i), Col(i)) == i
  {
  }

  /** The eight surrounding cells. */
  ghost predicate Adjacent(a: nat, b: nat) {
    a != b && -1 <= Row(a) - Row(b) <= 1 && -1 <= Col(a) - Col(b) <= 1
  }

  const DR := [-1, -1, -1, 0, 0, 1, 1, 1]
  const DC := [-1, 0, 1, -1, 1, -1, 0, 1]

  /** The offset tables name every neighbour once. */
  lemma DirectionOf(a: nat, b: nat) returns (d: nat)
    requires a < PIXELS && b < PIXELS && Adjacent(a, b)
    ensures d < 8 && Row(b) == Row(a) + DR[d] && Col(b) == Col(a) + DC[d]
  {
    CellOfRowCol(a);
    CellOfRowCol(b);
    var k := 3 * (Row(b) - Row(a) + 1) + (Col(b) - Col(a) + 1);
    d := if k < 4 then k else k - 1;
  }

  lemma NeighbourIsAdjacent(a: nat, d: nat)
    requires a < PIXELS && d < 8 && InGrid(Row(a) + DR[d], Col(a) + DC[d])
    ensures Adjacent(a, Cell(Row(a) + DR[d], Col(a) + DC[d]))
  {
  }
}
