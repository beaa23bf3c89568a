/**
 * The cell record of the board and the grid it lives in (Board/index.tsx):
 * a cell has a marking state, a bomb flag and the number of neighbouring
 * bombs; the grid is a sequence of rows, row `i` and column `j`.
 */
module CellTypes {

  /** `CellStates`: closed, flagged, question-marked ("onHold") or open. */
  datatype CellState = Close | Flag | OnHold | Open

  /** `CellType`. */
  datatype Cell = Cell(state: CellState, bomb: bool, value: int)

  /** `PositionType`: row `i`, column `j`. */
  datatype Position = Position(i: nat, j: nat)

  type Grid = seq<seq<Cell>>

  /** `initialCell`: closed, no bomb, no count. */
  const InitialCell: Cell := Cell(Close, false, 0)

  /** The bomb cell `setBoardItems` fills its list with. */
  const BombCell: Cell := InitialCell.(bomb := true)

  /** `rows` rows of `cols` cells each. */
  predicate IsRect(g: Grid, rows: int, cols: int) {
    |g| == rows && forall r :: 0 <= r < |g| ==> |g[r]| == cols
  }

  /** Every row as long as the first. */
  predicate Rectangular(g: Grid) {
    forall r :: 0 <= r < |g| ==> |g[r]| == |g[0]|
  }

  /** Two grids with the same number of rows and the same row lengths. */
  predicate SameShape(g: Grid, h: Grid) {
    |g| == |h| && forall r :: 0 <= r < |g| ==> |g[r]| == |h[r]|
  }
}
