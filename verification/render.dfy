/** The pure decisions of `Game::draw` in src/game.rs: which colour each cell
    is filled with and which rectangle of the canvas it covers, in the order
    the cells are painted. Rasterising, text drawing and PNG output are not
    part of this module. */
module Render {
  import opened Board

  newtype u8 = x: int | 0 <= x < 256

  /** An ARGB colour, in the argument order of the drawing library. */
  datatype Color = Color(a: u8, r: u8, g: u8, b: u8)

  const WHITE: Color := Color(0xff, 0xdd, 0xdd, 0xdd)
  const GRAY: Color := Color(0xff, 0xbb, 0xbb, 0xbb)
  const BLUE: Color := Color(0xff, 0x32, 0x48, 0xa8)

  /** Side of one cell in pixels. */
  const CELL_SIZE: int := 200

  /** Side of the square canvas in pixels. */
  const CANVAS_SIZE: int := 7 * CELL_SIZE

  datatype Rect = Rect(x: int, y: int, w: int, h: int)

  /** One `fill_rect` call. */
  datatype Fill = Fill(rect: Rect, color: Color)

  predicate Contains(r: Rect, px: int, py: int)
  {
    r.x <= px < r.x + r.w && r.y <= py < r.y + r.h
  }

  /** Background colour of the cell at row `i`, column `j`: occupied cells are
      blue, empty ones follow a checkerboard. */
  function CellColor(cell: Cell, i: nat, j: nat): Color
  {
    match cell
    case Occupied(_) => BLUE
    case Empty => if (i + j) % 2 == 0 then WHITE else GRAY
  }

  /** Rectangle covered by the cell at row `i`, column `j`: column picks x,
      row picks y. */
  function CellRect(i: nat, j: nat): Rect
  {
    Rect(j * CELL_SIZE, i * CELL_SIZE, CELL_SIZE, CELL_SIZE)
  }

  /** Blue marks exactly the occupied cells. */
  lemma BlueIffOccupied(cell: Cell, i: nat, j: nat)
    ensures CellColor(cell, i, j) == BLUE <==> cell.Occupied?
  {
  }

  /** Two empty cells get the same colour exactly when their row+column
      parities agree, wherever they are and whatever else is on the board. */
  lemma EmptyColorIsParity(i: nat, j: nat, i': nat, j': nat)
    ensures CellColor(Empty, i, j) == CellColor(Empty, i', j') <==> (i + j) % 2 == (i' + j') % 2
  {
  }

  /** Horizontally or vertically adjacent empty cells differ in colour. */
  lemma AdjacentEmptyCellsDiffer(i: nat, j: nat)
    ensures CellColor(Empty, i, j) != CellColor(Empty, i, j + 1)
    ensures CellColor(Empty, i, j) != CellColor(Empty, i + 1, j)
  {
  }

  /** Every cell rectangle of the 7x7 grid lies inside the canvas. */
  lemma CellRectInCanvas(i: nat, j: nat)
    requires i < SIZE && j < SIZE
    ensures var r := CellRect(i, j);
            0 <= r.x && r.x + r.w <= CANVAS_SIZE && 0 <= r.y && r.y + r.h <= CANVAS_SIZE
  {
  }

  /** Every canvas pixel lies in the rectangle of some cell: the one at row
      `py / CELL_SIZE`, column `px / CELL_SIZE`. */
  lemma TilingCovers(px: int, py: int)
    requires 0 <= px < CANVAS_SIZE && 0 <= py < CANVAS_SIZE
    ensures py / CELL_SIZE < SIZE && px / CELL_SIZE < SIZE
    ensures Contains(CellRect(py / CELL_SIZE, px / CELL_SIZE), px, py)
  {
  }

  /** No pixel lies in the rectangles of two different cells. */
  lemma TilingDisjoint(i: nat, j: nat, i': nat, j': nat, px: int, py: int)
    requires Contains(CellRect(i, j), px, py) && Contains(CellRect(i', j'), px, py)
    ensures i == i' && j == j'
  {
  }

  /** The cell loop of `Game::draw`: one fill per cell, rows top to bottom,
      cells left to right within a row. */
  method PaintCells(field: seq<seq<Cell>>) returns (fills: seq<Fill>)
    requires IsGrid(field)
    ensures |fills| == SIZE * SIZE
    ensures forall i, j :: 0 <= i < SIZE && 0 <= j < SIZE ==>
              fills[i * SIZE + j] == Fill(CellRect(i, j), CellColor(field[i][j], i, j))
  {
    fills := [];
    for i := 0 to |field|
      invariant |fills| == i * SIZE
      invariant forall i', j :: 0 <= i' < i && 0 <= j < SIZE ==>
                  fills[i' * SIZE + j] == Fill(CellRect(i', j), CellColor(field[i'][j], i', j))
    {
      var row := field[i];
      for j := 0 to |row|
        invariant |fills| == i * SIZE + j
        invariant forall i', j' :: 0 <= i' < i && 0 <= j' < SIZE ==>
                    fills[i' * SIZE + j'] == Fill(CellRect(i', j'), CellColor(field[i'][j'], i', j'))
        invariant forall j' :: 0 <= j' < j ==>
                    fills[i * SIZE + j'] == Fill(CellRect(i, j'), CellColor(row[j'], i, j'))
      {
        fills := fills + [Fill(CellRect(i, j), CellColor(row[j], i, j))];
      }
    }
  }

  /** On a board built by `New`, the blue cells are exactly the slots of the
      players present. */
  lemma BlueCellsAreSlots(g: Game, i: nat, j: nat)
    requires WellFormed(g)
    requires i < SIZE && j < SIZE
    ensures CellColor(g.field[i][j], i, j) == BLUE <==> SlotOf(i, j).Some? && SlotOf(i, j).value < |g.players|
  {
    BlueIffOccupied(g.field[i][j], i, j);
    OccupiedIffSlot(g, i, j);
  }
}
