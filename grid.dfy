/** An optional value, used where the game can produce nothing. */
module Wrappers {
  datatype Option<+T> = None | Some(value: T)
}

/** The square board of the snake game: cells, headings, moves and free cells. */
module Grid {

  /** Side of the board (GRID_SIZE). */
  const GridSize: int := 10
  /** Number of cells on the board. */
  const GridArea: int := GridSize * GridSize
  /** Moves allowed without eating before an episode times out (max_steps). */
  const MaxSteps: int := 2 * GridSize * GridSize

  /** A board position; `row` grows downward. */
  datatype Cell = Cell(row: int, col: int)

  /** Absolute heading: 0 up, 1 right, 2 down, 3 left. */
  type Direction = d: int | 0 <= d < 4

  predicate InBounds(c: Cell) {
    0 <= c.row < GridSize && 0 <= c.col < GridSize
  }

  function Abs(x: int): nat {
    if x < 0 then -x else x
  }

  /** Manhattan distance between two cells. */
  function Distance(a: Cell, b: Cell): nat {
    Abs(a.row - b.row) + Abs(a.col - b.col)
  }

  /** The cell one step from `c` in heading `d` (the `moves` table). */
  function Neighbour(c: Cell, d: Direction): (n: Cell)
    ensures Distance(c, n) == 1
    ensures d == 0 || d == 2 ==> n.col == c.col && n.row == c.row + d - 1
    ensures d == 1 || d == 3 ==> n.row == c.row && n.col == c.col + 2 - d
  {
    match d
    case 0 => Cell(c.row - 1, c.col)
    case 1 => Cell(c.row, c.col + 1)
    case 2 => Cell(c.row + 1, c.col)
    case 3 => Cell(c.row, c.col - 1)
  }

  /** Heading after a relative action: 1 turns clockwise, 2 counter-clockwise, anything else keeps it. */
  function Turn(d: Direction, action: int): (r: Direction)
    ensures action == 1 ==> (r - d) % 4 == 1
    ensures action == 2 ==> (d - r) % 4 == 1
    ensures action != 1 && action != 2 ==> r == d
  {
    if action == 1 then (d + 1) % 4
    else if action == 2 then (d + 3) % 4
    else d
  }

  /** A left turn undoes a right turn, and the other way round. */
  lemma TurnsCancel(d: Direction)
    ensures Turn(Turn(d, 1), 2) == d && Turn(Turn(d, 2), 1) == d
  {
  }

  /** No cell occurs twice. */
  predicate Distinct(s: seq<Cell>) {
    forall i, j :: 0 <= i < j < |s| ==> s[i] != s[j]
  }

  predicate AllInBounds(s: seq<Cell>) {
    forall i :: 0 <= i < |s| ==> InBounds(s[i])
  }

  /** Consecutive cells are orthogonal neighbours. */
  predicate Connected(s: seq<Cell>) {
    forall i :: 0 <= i < |s| - 1 ==> Distance(s[i], s[i + 1]) == 1
  }

  /** The cells a food item may be placed on: on the board and not occupied by `s`. */
  function FreeCells(s: seq<Cell>): (free: set<Cell>)
    ensures forall c :: c in free <==> InBounds(c) && c !in s
  {
    set r, k | 0 <= r < GridSize && 0 <= k < GridSize && Cell(r, k) !in s :: Cell(r, k)
  }

  /** The `i`-th cell in row-major order. */
  function CellAt(i: int): Cell {
    Cell(i / GridSize, i % GridSize)
  }

  ghost function FirstCells(n: nat): set<Cell> {
    set i | 0 <= i < n :: CellAt(i)
  }

  /** Every board cell, in the form used for counting. */
  ghost function Board(): set<Cell> {
    set r, k | 0 <= r < GridSize && 0 <= k < GridSize :: Cell(r, k)
  }

  ghost function Cells(s: seq<Cell>): set<Cell> {
    set c | c in s
  }

  lemma {:induction false} FirstCellsCount(n: nat)
    ensures |FirstCells(n)| == n
  {
    if n > 0 {
      FirstCellsCount(n - 1);
      assert FirstCells(n) == FirstCells(n - 1) + {CellAt(n - 1)};
    }
  }

  /** The board has exactly GridArea cells. */
  lemma BoardCount()
    ensures |Board()| == GridArea
  {
    forall c | c in Board() ensures c in FirstCells(GridArea) {
      var i := c.row * GridSize + c.col;
      assert CellAt(i) == c;
    }
    forall c | c in FirstCells(GridArea) ensures c in Board() {
      var i :| 0 <= i < GridArea && CellAt(i) == c;
    }
    assert Board() == FirstCells(GridArea);
    FirstCellsCount(GridArea);
  }

  lemma {:induction false} DistinctCellsCount(s: seq<Cell>)
    requires Distinct(s)
    ensures |Cells(s)| == |s|
  {
    if s != [] {
      DistinctCellsCount(s[1..]);
      assert Cells(s) == {s[0]} + Cells(s[1..]);
      assert s[0] !in s[1..];
    }
  }

  /** A body of distinct board cells leaves exactly GridArea - |s| cells free. */
  lemma FreeCellCount(s: seq<Cell>)
    requires AllInBounds(s) && Distinct(s)
    ensures |FreeCells(s)| == GridArea - |s|
    ensures FreeCells(s) == {} <==> |s| == GridArea
  {
    BoardCount();
    DistinctCellsCount(s);
    var used := Cells(s);
    assert used <= Board() by {
      forall c | c in used ensures c in Board() {
        assert InBounds(c);
      }
    }
    assert FreeCells(s) == Board() - used;
    assert (Board() - used) + used == Board();
    assert (Board() - used) * used == {};
  }
}
