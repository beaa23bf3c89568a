/**
 * The game board of Board/index.tsx: a session object holding the grid
 * (`boardSurfaces`), whether the bombs have been placed (`started`), the
 * first clicked cell (`startPosition`), the last opened cell
 * (`currentPosition`) and the outcome (`gameStatus`). The player's clicks
 * and the effects that React runs after them are methods called one after
 * the other.
 */
module Board {
  import opened Wrappers
  import opened CellTypes
  import opened ModeConstraints
  import opened BoardModule

  // ---------------------------------------------------------------------
  // Reshaping a flat list into rows of `x` cells
  // ---------------------------------------------------------------------

  /** Rows of `x` cells, the last one shorter when `|s|` is not a multiple of `x`. */
  function Chunked(s: seq<Cell>, x: nat): seq<seq<Cell>>
    requires x > 0
    decreases |s|
  {
    if |s| == 0 then [] else if |s| <= x then [s] else [s[..x]] + Chunked(s[x..], x)
  }

  /** The cells of a grid, row after row. */
  function Flatten(rows: Grid): seq<Cell> {
    if rows == [] then [] else rows[0] + Flatten(rows[1..])
  }

  /** Reshaping loses and reorders nothing. */
  lemma {:induction false} ChunkedFlatten(s: seq<Cell>, x: nat)
    requires x > 0
    ensures Flatten(Chunked(s, x)) == s
    decreases |s|
  {
    if |s| > x {
      ChunkedFlatten(s[x..], x);
      assert s == s[..x] + s[x..];
    } else if |s| > 0 {
      assert [s][1..] == [];
    }
  }

  lemma MulStep(r: int, x: int)
    ensures (r - 1) * x + x == r * x
  {
  }

  lemma MulMono(a: nat, b: nat, c: nat, d: nat)
    requires a <= c && b <= d
    ensures a * b <= c * d
  {
    assert a * b <= c * b;
    assert c * b <= c * d;
  }

  lemma MulStrict(a: nat, b: nat, c: nat, d: nat)
    requires 0 < a <= c && 0 < b <= d && (a < c || b < d)
    ensures a * b < c * d
  {
    if a < c {
      assert a * b < c * b;
      MulMono(c, b, c, d);
    } else {
      assert a * b < a * d;
    }
  }

  /** Where row `r` starts in the row-major list of a board `x` wide. */
  function RowStart(r: nat, x: nat): nat {
    if r == 0 then 0 else RowStart(r - 1, x) + x
  }

  lemma {:induction false} RowStartIsProduct(r: nat, x: nat)
    ensures RowStart(r, x) == r * x
    decreases r
  {
    if r > 0 {
      RowStartIsProduct(r - 1, x);
      MulStep(r, x);
    }
  }

  lemma {:induction false} RowStartMono(r: nat, q: nat, x: nat)
    requires r <= q
    ensures RowStart(r, x) <= RowStart(q, x)
    decreases q
  {
    if r < q {
      RowStartMono(r, q - 1, x);
    }
  }

  /** Appending a full row to `y` full rows appends it to the chunks. */
  lemma {:induction false} ChunkedSnoc(t: seq<Cell>, row: seq<Cell>, x: nat, y: nat)
    requires x > 0 && |t| == RowStart(y, x) && |row| == x
    ensures Chunked(t + row, x) == Chunked(t, x) + [row]
    decreases y
  {
    if y == 0 {
      assert t + row == row;
    } else {
      var h := t[x..];
      ChunkedSnoc(h, row, x, y - 1);
      assert (t + row)[..x] == t[..x] && (t + row)[x..] == h + row;
      if |t| == x {
        assert h == [];
        assert Chunked(t, x) == [t];
        assert Chunked(h + row, x) == [row];
      } else {
        assert Chunked(t, x) == [t[..x]] + Chunked(h, x);
      }
    }
  }

  /**
   * The number of rows is `|s|` divided by `x`, rounded up: the rows before
   * the last one hold fewer than `|s|` cells, and all of them at least `|s|`.
   */
  lemma {:induction false} ChunkedCount(s: seq<Cell>, x: nat)
    requires x > 0
    ensures |Chunked(s, x)| == 0 <==> |s| == 0
    ensures |s| > 0 ==> RowStart(|Chunked(s, x)| - 1, x) < |s| <= RowStart(|Chunked(s, x)|, x)
    ensures |s| > 0 ==> (|Chunked(s, x)| - 1) * x < |s| <= |Chunked(s, x)| * x
    decreases |s|
  {
    var k := |Chunked(s, x)|;
    if |s| > x {
      ChunkedCount(s[x..], x);
      assert k == |Chunked(s[x..], x)| + 1;
    }
    if |s| > 0 {
      RowStartIsProduct(k - 1, x);
      RowStartIsProduct(k, x);
    }
  }

  /** Every one of `y` rows of `x` fits in `RowStart(y, x)` cells. */
  lemma RowStartBound(r: nat, x: nat, y: nat)
    requires r < y
    ensures RowStart(r, x) + x <= RowStart(y, x)
  {
    RowStartMono(r + 1, y, x);
  }

  /** One cell of the inductive step of `ChunkedRows`. */
  lemma ChunkedRowsCell(s: seq<Cell>, x: nat, y: nat, r: nat, c: nat)
    requires x > 0 && 0 < y && |s| == RowStart(y, x) && r < y && c < x
    requires Chunked(s, x) == Chunked(s[..RowStart(y - 1, x)], x) + [s[RowStart(y - 1, x)..]]
    requires IsRect(Chunked(s[..RowStart(y - 1, x)], x), y - 1, x)
    requires r < y - 1 ==> RowStart(r, x) + x <= RowStart(y - 1, x)
    requires r < y - 1 ==>
      Chunked(s[..RowStart(y - 1, x)], x)[r][c] == s[..RowStart(y - 1, x)][RowStart(r, x) + c]
    ensures RowStart(r, x) + x <= |s|
    ensures Chunked(s, x)[r][c] == s[RowStart(r, x) + c]
  {
    RowStartBound(r, x, y);
  }

  /** A list of `y` rows of `x` cells reshapes into those rows. */
  lemma {:induction false} ChunkedRows(s: seq<Cell>, x: nat, y: nat)
    requires x > 0 && |s| == RowStart(y, x)
    ensures IsRect(Chunked(s, x), y, x)
    ensures forall r :: 0 <= r < y ==> RowStart(r, x) + x <= |s|
    ensures forall r, c :: 0 <= r < y && 0 <= c < x ==> Chunked(s, x)[r][c] == s[RowStart(r, x) + c]
    decreases y
  {
    forall r | 0 <= r < y
      ensures RowStart(r, x) + x <= |s|
    {
      RowStartBound(r, x, y);
    }
    if y > 0 {
      var n := RowStart(y - 1, x);
      var t := s[..n];
      ChunkedRows(t, x, y - 1);
      ChunkedSnoc(t, s[n..], x, y - 1);
      assert t + s[n..] == s;
      forall r, c | 0 <= r < y && 0 <= c < x
        ensures Chunked(s, x)[r][c] == s[RowStart(r, x) + c]
      {
        ChunkedRowsCell(s, x, y, r, c);
      }
    }
  }

  /**
   * A list of `x*y` cells reshapes into `y` rows of `x`, cell (r, c) being
   * the one after the first `r` rows and `c` more cells.
   */
  lemma ChunkedGrid(s: seq<Cell>, x: nat, y: nat)
    requires x > 0 && |s| == x * y
    ensures IsRect(Chunked(s, x), y, x)
    ensures forall r :: 0 <= r < y ==> RowStart(r, x) + x <= |s|
    ensures forall r, c :: 0 <= r < y && 0 <= c < x ==> Chunked(s, x)[r][c] == s[RowStart(r, x) + c]
  {
    RowStartIsProduct(y, x);
    assert x * y == y * x;
    ChunkedRows(s, x, y);
  }

  /** Taking a row off the front of a non-empty list. */
  lemma ChunkedHead(s: seq<Cell>, x: nat)
    requires x > 0 && |s| > 0
    ensures var m := if x < |s| then x else |s|;
      Chunked(s, x) == [s[..m]] + Chunked(s[m..], x)
  {
    if |s| <= x {
      assert s[..|s|] == s && s[|s|..] == [];
    }
  }

  /**
   * The loop `for (i = 0; i < cells.length; i += x) array.push(cells.slice(i, i + x))`
   * of `initialBoard` and `setBoardItems`.
   */
  method Reshape(cells: seq<Cell>, x: nat) returns (rows: Grid)
    requires x > 0
    ensures rows == Chunked(cells, x)
  {
    rows := [];
    var i := 0;
    assert cells[0..] == cells;
    while i < |cells|
      invariant 0 <= i
      invariant rows + Chunked(cells[if i < |cells| then i else |cells|..], x) == Chunked(cells, x)
      decreases |cells| - i
    {
      var end := if i + x < |cells| then i + x else |cells|;
      ChunkedHead(cells[i..], x);
      assert cells[i..][..end - i] == cells[i..end];
      assert cells[i..][end - i..] == cells[end..];
      AppendAssoc(rows, [cells[i..end]], Chunked(cells[end..], x));
      rows := rows + [cells[i..end]];
      i := i + x;
      assert (if i < |cells| then i else |cells|) == end;
    }
    assert cells[|cells|..] == [];
  }

  // ---------------------------------------------------------------------
  // The bomb list of setBoardItems
  // ---------------------------------------------------------------------

  lemma {:induction false} BombsConst(c: Cell, n: nat)
    ensures Bombs(seq(n, _ => c)) == if c.bomb then n else 0
    decreases n
  {
    if n > 0 {
      assert seq(n, _ => c)[..n - 1] == seq(n - 1, _ => c);
      BombsConst(c, n - 1);
    }
  }

  /** `b` bomb cells followed by `n` safe cells. */
  lemma {:induction false} BombsThenSafe(b: nat, n: nat)
    ensures var cells := seq(b, _ => BombCell) + seq(n, _ => InitialCell);
      |cells| == b + n && Bombs(cells) == b
      && forall k :: 0 <= k < |cells| ==> cells[k] == BombCell || cells[k] == InitialCell
  {
    var bombs := seq(b, _ => BombCell);
    var safe := seq(n, _ => InitialCell);
    BombsConst(BombCell, b);
    BombsConst(InitialCell, n);
    BombsConcat(bombs, safe);
  }

  /**
   * `[...Array(bomb).fill(bombCell), ...Array(x*y-bomb-1).fill(initialCell)]`:
   * exactly `bomb` bombs and one cell fewer than the board, the missing one
   * being the cell of the first click.
   */
  function Pool(m: ModeInfo): (cells: seq<Cell>)
    requires Playable(m)
    ensures |cells| == m.x * m.y - 1
    ensures Bombs(cells) == m.bomb
    ensures forall k :: 0 <= k < |cells| ==> cells[k] == BombCell || cells[k] == InitialCell
  {
    var safe := m.x * m.y - m.bomb - 1;
    BombsThenSafe(m.bomb, safe);
    seq(m.bomb, _ => BombCell) + seq(safe, _ => InitialCell)
  }

  /** Two grids of one shape whose cells agree on where the bombs are. */
  predicate SameBombs(r: Grid, g: Grid) {
    SameShape(r, g)
    && forall i, j :: 0 <= i < |g| && 0 <= j < |g[i]| ==> r[i][j].bomb == g[i][j].bomb
  }

  lemma {:induction false} RowBombs(u: seq<Cell>, v: seq<Cell>)
    requires |u| == |v| && forall k :: 0 <= k < |u| ==> u[k].bomb == v[k].bomb
    ensures Bombs(u) == Bombs(v)
    decreases |u|
  {
    if |u| > 0 {
      RowBombs(u[..|u| - 1], v[..|v| - 1]);
    }
  }

  lemma {:induction false} SameBombsCount(r: Grid, g: Grid)
    requires SameBombs(r, g)
    ensures Bombs(Flatten(r)) == Bombs(Flatten(g))
    decreases |g|
  {
    if |g| > 0 {
      assert SameBombs(r[1..], g[1..]) by {
        forall i, j | 0 <= i < |g[1..]| && 0 <= j < |g[1..][i]|
          ensures r[1..][i][j].bomb == g[1..][i][j].bomb
        {
          assert r[1..][i] == r[i + 1] && g[1..][i] == g[i + 1];
        }
      }
      SameBombsCount(r[1..], g[1..]);
      RowBombs(r[0], g[0]);
      BombsConcat(r[0], Flatten(r[1..]));
      BombsConcat(g[0], Flatten(g[1..]));
    }
  }

  /**
   * The board `setBoardItems` builds holds exactly `bomb` bombs, when the
   * safe cell was inserted and the list filled the board.
   */
  lemma PlacedBombs(m: ModeInfo, start: Position, picks: seq<nat>, board: Grid)
    requires Playable(m) && ValidPicks(picks, |Pool(m)|)
    requires Counted(board, Chunked(Shuffled(Pool(m), picks, StartIndex(start)), m.x))
    ensures Bombs(Flatten(board)) == m.bomb
  {
    var s := Shuffled(Pool(m), picks, StartIndex(start));
    var g := Chunked(s, m.x);
    CountedCells(board, g);
    SameBombsCount(board, g);
    ChunkedFlatten(s, m.x);
    ShuffledBombs(Pool(m), picks, StartIndex(start));
  }

  // ---------------------------------------------------------------------
  // Where the safe cell goes
  // ---------------------------------------------------------------------

  /** The index of (i, j) in the flat list, row after row, on a board `x` wide. */
  function RowMajor(start: Position, x: nat): nat {
    start.i * x + start.j
  }

  /**
   * The safe cell is inserted exactly when the first click is not on the
   * bottom-right cell: only there does `(i+1)*(j+1)-1` reach the length
   * `x*y-1` of the bomb list.
   */
  lemma SafeCellInserted(m: ModeInfo, start: Position)
    requires Playable(m) && start.i < m.y && start.j < m.x
    ensures 0 <= StartIndex(start) < m.x * m.y - 1 <==> !(start.i == m.y - 1 && start.j == m.x - 1)
  {
    ProductBelow(start.i + 1, start.j + 1, m.y, m.x);
  }

  /** A product of factors no larger than `y` and `x` reaches `x*y` only at `y` and `x`. */
  lemma ProductBelow(a: nat, b: nat, y: nat, x: nat)
    requires 1 <= a <= y && 1 <= b <= x
    ensures 1 <= a * b <= x * y
    ensures a * b < x * y <==> (a < y || b < x)
  {
    MulMono(1, 1, a, b);
    MulMono(a, b, y, x);
    if a < y || b < x {
      MulStrict(a, b, y, x);
    }
  }

  /**
   * The safe cell lands under the clicked cell exactly when the click is in
   * the top row or the rightmost column.
   */
  lemma StartIndexIsRowMajor(start: Position, x: nat)
    requires start.j < x
    ensures StartIndex(start) == RowMajor(start, x) <==> (start.i == 0 || start.j == x - 1)
  {
    var i, j := start.i, start.j;
    assert (i + 1) * (j + 1) == i * (j + 1) + (j + 1);
    assert StartIndex(start) == i * (j + 1) + j;
    if i > 0 && j + 1 < x {
      MulStrict(i, j + 1, i, x);
    }
  }

  /** A 2 by 2 board with one bomb. */
  const TwoByTwo: ModeInfo := ModeInfo(1, 2, 2)

  lemma TwoByTwoPool()
    ensures Playable(TwoByTwo) && Pool(TwoByTwo) == [BombCell, InitialCell, InitialCell]
  {
    assert seq(1, _ => BombCell) == [BombCell];
    assert seq(2, _ => InitialCell) == [InitialCell, InitialCell];
  }

  lemma DrawnTail()
    ensures ValidPicks([0, 0], 2)
    ensures Drawn([BombCell, InitialCell], [0, 0]) == [BombCell, InitialCell]
  {
    assert TakeOut([BombCell, InitialCell], 0) == [InitialCell];
    assert Drawn([InitialCell], [0]) == [InitialCell];
  }

  lemma DrawnThree()
    ensures ValidPicks([1, 0, 0], 3)
    ensures Drawn([BombCell, InitialCell, InitialCell], [1, 0, 0]) == [InitialCell, BombCell, InitialCell]
  {
    DrawnTail();
    assert TakeOut([BombCell, InitialCell, InitialCell], 1) == [BombCell, InitialCell];
    assert [1, 0, 0][1..] == [0, 0];
  }

  lemma TwoByTwoDrawn()
    ensures Playable(TwoByTwo) && ValidPicks([1, 0, 0], |Pool(TwoByTwo)|)
    ensures Drawn(Pool(TwoByTwo), [1, 0, 0]) == [InitialCell, BombCell, InitialCell]
  {
    TwoByTwoPool();
    DrawnThree();
  }

  /**
   * As written, a first click at row 1, column 0 of a 2 by 2 board with one
   * bomb can land on the bomb: with the draws [1, 0, 0] the safe cell is put
   * at (0, 1) and the bomb at (1, 0).
   */
  lemma FirstClickCanHitBomb()
    ensures Playable(TwoByTwo) && ValidPicks([1, 0, 0], |Pool(TwoByTwo)|)
    ensures Chunked(Shuffled(Pool(TwoByTwo), [1, 0, 0], StartIndex(Position(1, 0))), 2)
      == [[InitialCell, InitialCell], [BombCell, InitialCell]]
  {
    TwoByTwoDrawn();
    assert StartIndex(Position(1, 0)) == 1;
    var d := [InitialCell, BombCell, InitialCell];
    var s := [InitialCell, InitialCell, BombCell, InitialCell];
    assert PlaceStart(d, 1) == s by {
      assert d[..1] + [InitialCell] + d[1..] == s;
    }
    assert s[..2] == [InitialCell, InitialCell] && s[2..] == [BombCell, InitialCell];
    assert Chunked(s[2..], 2) == [[BombCell, InitialCell]];
    assert Chunked(s, 2) == [s[..2]] + Chunked(s[2..], 2);
  }

  /**
   * The placement the first click calls for: the drawn cells with the safe
   * cell inserted at the click's own row-major index.
   */
  function ShuffledAtClick(pool: seq<Cell>, picks: seq<nat>, start: Position, x: nat): seq<Cell>
    requires ValidPicks(picks, |pool|) && RowMajor(start, x) <= |pool|
  {
    PlaceStart(Drawn(pool, picks), RowMajor(start, x))
  }

  /** Inserting the safe cell adds no bomb. */
  lemma PlaceStartBombs(d: seq<Cell>, p: nat)
    requires p <= |d|
    ensures Bombs(PlaceStart(d, p)) == Bombs(d)
  {
    assert PlaceStart(d, p) == d[..p] + [InitialCell] + d[p..];
    assert d == d[..p] + d[p..];
    BombsConcat(d[..p], d[p..]);
    BombsConcat(d[..p] + [InitialCell], d[p..]);
    BombsPush(d[..p], InitialCell);
  }

  /** The click's row-major index is within the board. */
  lemma RowMajorOnBoard(start: Position, x: nat, y: nat)
    requires start.i < y && start.j < x
    ensures RowMajor(start, x) == RowStart(start.i, x) + start.j
    ensures RowMajor(start, x) < x * y
  {
    RowStartIsProduct(start.i, x);
    RowStartIsProduct(y, x);
    RowStartBound(start.i, x, y);
  }

  /**
   * With the safe cell at the click's row-major index, the board is always
   * full, the clicked cell is the safe cell, and all bombs are placed.
   */
  lemma ShuffledAtClickIsSafe(m: ModeInfo, start: Position, picks: seq<nat>)
    requires Playable(m) && start.i < m.y && start.j < m.x
    requires ValidPicks(picks, |Pool(m)|)
    ensures RowMajor(start, m.x) <= |Pool(m)|
    ensures var g := Chunked(ShuffledAtClick(Pool(m), picks, start, m.x), m.x);
      IsRect(g, m.y, m.x) && g[start.i][start.j] == InitialCell && Bombs(Flatten(g)) == m.bomb
  {
    var pool := Pool(m);
    var p := RowMajor(start, m.x);
    RowMajorOnBoard(start, m.x, m.y);
    var d := Drawn(pool, picks);
    var s := PlaceStart(d, p);
    ChunkedGrid(s, m.x, m.y);
    ChunkedFlatten(s, m.x);
    DrawnPermutation(pool, picks);
    BombsOfPermutation(d, pool);
    PlaceStartBombs(d, p);
  }

  // ---------------------------------------------------------------------
  // The win test and the single-cell update
  // ---------------------------------------------------------------------

  /** A cell that is not a bomb and is still closed. */
  predicate CloseSafe(c: Cell) {
    !c.bomb && c.state == Close
  }

  /** `cells.filter(cell => !cell.bomb && cell.state === "close")`. */
  function CloseSafeCells(row: seq<Cell>): seq<Cell> {
    if row == [] then []
    else CloseSafeCells(row[..|row| - 1]) + (if CloseSafe(row[|row| - 1]) then [row[|row| - 1]] else [])
  }

  /** `boardSurfaces.filter(...)`: the rows holding a closed safe cell. */
  function CloseSafeRows(board: Grid): Grid {
    if board == [] then
      []
    else
      var rest := CloseSafeRows(board[..|board| - 1]);
      rest + (if |CloseSafeCells(board[|board| - 1])| > 0 then [board[|board| - 1]] else [])
  }

  /** No cell of the board is both safe and closed. */
  predicate NoClosedSafeCell(board: Grid) {
    forall i, j :: 0 <= i < |board| && 0 <= j < |board[i]| ==> !CloseSafe(board[i][j])
  }

  lemma {:induction false} CloseSafeCellsEmpty(row: seq<Cell>)
    ensures |CloseSafeCells(row)| == 0 <==> forall j :: 0 <= j < |row| ==> !CloseSafe(row[j])
    decreases |row|
  {
    if row != [] {
      var init := row[..|row| - 1];
      CloseSafeCellsEmpty(init);
      assert forall j :: 0 <= j < |init| ==> init[j] == row[j];
    }
  }

  /**
   * The win test of the source, `closeSafeCellRows.length === 0`, holds
   * exactly when no cell anywhere is safe and closed (flagged and
   * question-marked safe cells do not block a win).
   */
  lemma {:induction false} WinTestIsFilter(board: Grid)
    ensures |CloseSafeRows(board)| == 0 <==> NoClosedSafeCell(board)
    decreases |board|
  {
    if board != [] {
      var init := board[..|board| - 1];
      var last := board[|board| - 1];
      WinTestIsFilter(init);
      CloseSafeCellsEmpty(last);
      assert forall i :: 0 <= i < |init| ==> init[i] == board[i];
    }
  }

  /**
   * `updateCell(i, j, state)` on a grid: the cell at (i, j) gets the new
   * state and keeps its bomb and count; every other cell stays as it was.
   */
  function WithState(g: Grid, i: nat, j: nat, state: CellState): (r: Grid)
    requires i < |g| && j < |g[i]|
    ensures SameShape(r, g)
    ensures r[i][j] == Cell(state, g[i][j].bomb, g[i][j].value)
    ensures forall a, b :: 0 <= a < |g| && 0 <= b < |g[a]| && (a != i || b != j) ==> r[a][b] == g[a][b]
  {
    g[i := g[i][j := g[i][j].(state := state)]]
  }

  /** Setting a cell to the state it already has changes nothing. */
  lemma WithSameState(g: Grid, i: nat, j: nat)
    requires i < |g| && j < |g[i]|
    ensures WithState(g, i, j, g[i][j].state) == g
  {
    assert g[i][j := g[i][j]] == g[i];
  }

  // ---------------------------------------------------------------------
  // The board session
  // ---------------------------------------------------------------------

  /** `gameStatus`. */
  datatype GameStatus = Win | Lose

  class Board {
    var modeInfo: ModeInfo
    var boardSurfaces: Grid
    var started: bool
    var startPosition: Option<Position>
    var currentPosition: Option<Position>
    var gameStatus: Option<GameStatus>

    predicate OnBoard(p: Position)
      reads this
    {
      p.i < modeInfo.y && p.j < modeInfo.x
    }

    /** The board fits the mode and the recorded positions are on it. */
    ghost predicate Valid()
      reads this
    {
      Playable(modeInfo) && IsRect(boardSurfaces, modeInfo.y, modeInfo.x)
      && (startPosition.Some? ==> OnBoard(startPosition.value))
      && (currentPosition.Some? ==> OnBoard(currentPosition.value))
    }

    /** The state `initialBoard` leaves: all cells closed and empty, nothing recorded. */
    ghost predicate IsReset()
      reads this
    {
      IsRect(boardSurfaces, modeInfo.y, modeInfo.x)
      && (forall i, j :: 0 <= i < modeInfo.y && 0 <= j < modeInfo.x ==> boardSurfaces[i][j] == InitialCell)
      && !started && startPosition == None && currentPosition == None && gameStatus == None
    }

    /** Mounting the board runs `initialBoard` once. */
    constructor (modeInfo: ModeInfo)
      requires Playable(modeInfo)
      ensures Valid() && IsReset() && this.modeInfo == modeInfo
    {
      this.modeInfo := modeInfo;
      boardSurfaces := [];
      started := false;
      startPosition := None;
      currentPosition := None;
      gameStatus := None;
      new;
      InitialBoard();
    }

    /** `initialBoard`: the reset button, and the reaction to a new mode. */
    method InitialBoard()
      requires Playable(modeInfo)
      modifies this
      ensures modeInfo == old(modeInfo)
      ensures Valid() && IsReset()
    {
      var x, y := modeInfo.x, modeInfo.y;
      assert x * y >= 1;
      var cells := seq(x * y, _ => InitialCell);
      var rows := Reshape(cells, x);
      ChunkedGrid(cells, x, y);
      boardSurfaces := rows;
      started := false;
      startPosition := None;
      currentPosition := None;
      gameStatus := None;
    }

    /** A new `modeInfo` prop: the board is rebuilt for it. */
    method ChangeMode(m: ModeInfo)
      requires Playable(m)
      modifies this
      ensures modeInfo == m
      ensures Valid() && IsReset()
    {
      modeInfo := m;
      InitialBoard();
    }

    /**
     * `setBoardItems` with the random draws `picks`: shuffle the bomb list
     * around the first click, reshape it and count neighbours. When the first
     * click is on the bottom-right cell the list is one cell short of the
     * board; the model then reports `false` and leaves the board as it was.
     */
    method SetBoardItems(picks: seq<nat>) returns (ok: bool)
      requires Valid() && startPosition.Some?
      requires ValidPicks(picks, |Pool(modeInfo)|)
      modifies this
      ensures Valid()
      ensures modeInfo == old(modeInfo) && started == old(started) && startPosition == old(startPosition)
      ensures currentPosition == old(currentPosition) && gameStatus == old(gameStatus)
      ensures ok <==> !(startPosition.value.i == modeInfo.y - 1 && startPosition.value.j == modeInfo.x - 1)
      ensures ok ==> Counted(boardSurfaces, Chunked(Shuffled(Pool(modeInfo), picks, StartIndex(startPosition.value)), modeInfo.x))
      ensures ok ==> Bombs(Flatten(boardSurfaces)) == modeInfo.bomb
      ensures !ok ==> boardSurfaces == old(boardSurfaces)
    {
      var x, y := modeInfo.x, modeInfo.y;
      var start := startPosition.value;
      var cells := Pool(modeInfo);
      var shuffled := Shuffle(cells, start, picks);
      ShuffledCells(cells, picks, StartIndex(start));
      SafeCellInserted(modeInfo, start);
      if |shuffled| != x * y {
        return false;
      }
      var newArray := Reshape(shuffled, x);
      ChunkedGrid(shuffled, x, y);
      var counted := SetBombCount(newArray);
      boardSurfaces := counted;
      PlacedBombs(modeInfo, start, picks, counted);
      ok := true;
    }

    /** The effect on `startPosition`: once it is set, place the bombs and mark the game started. */
    method StartEffect(picks: seq<nat>) returns (ok: bool)
      requires Valid() && ValidPicks(picks, |Pool(modeInfo)|)
      modifies this
      ensures Valid()
      ensures modeInfo == old(modeInfo) && startPosition == old(startPosition)
      ensures currentPosition == old(currentPosition) && gameStatus == old(gameStatus)
      ensures old(startPosition).None? ==> ok && unchanged(this)
      ensures old(startPosition).Some? ==> (ok <==> !(startPosition.value.i == modeInfo.y - 1 && startPosition.value.j == modeInfo.x - 1))
      ensures old(startPosition).Some? && ok ==>
        started && Counted(boardSurfaces, Chunked(Shuffled(Pool(modeInfo), picks, StartIndex(startPosition.value)), modeInfo.x))
      ensures !ok ==> boardSurfaces == old(boardSurfaces) && started == old(started)
    {
      if startPosition.Some? {
        ok := SetBoardItems(picks);
        if ok {
          started := true;
        }
      } else {
        ok := true;
      }
    }

    /** `updateCell(i, j, state)`: only the state of cell (i, j) changes. */
    method UpdateCell(i: nat, j: nat, state: CellState)
      requires Valid() && i < modeInfo.y && j < modeInfo.x
      modifies this
      ensures Valid()
      ensures boardSurfaces == WithState(old(boardSurfaces), i, j, state)
      ensures modeInfo == old(modeInfo) && started == old(started) && startPosition == old(startPosition)
      ensures currentPosition == old(currentPosition) && gameStatus == old(gameStatus)
    {
      var board: Grid := boardSurfaces;
      var row: seq<Cell> := board[i];
      var cell: Cell := row[j];
      row := row[j := cell.(state := state)];
      board := board[i := row];
      boardSurfaces := board;
    }

    /** What `openCell(i, j)` does to the session. */
    twostate predicate OpenCellDone(i: nat, j: nat)
      reads this
    {
      modeInfo == old(modeInfo) && started == old(started) && gameStatus == old(gameStatus)
      && if old(gameStatus).Some? then
        boardSurfaces == old(boardSurfaces) && startPosition == old(startPosition)
        && currentPosition == old(currentPosition)
      else if old(startPosition).None? then
        // first click: only the positions are recorded
        boardSurfaces == old(boardSurfaces)
        && startPosition == Some(Position(i, j)) && currentPosition == Some(Position(i, j))
      else
        startPosition == old(startPosition)
        && i < |old(boardSurfaces)| && j < |old(boardSurfaces)[i]|
        && if old(boardSurfaces)[i][j].state == Close then
          boardSurfaces == WithState(old(boardSurfaces), i, j, Open)
          && currentPosition == Some(Position(i, j))
        else
          boardSurfaces == old(boardSurfaces) && currentPosition == old(currentPosition)
    }

    /**
     * `openCell(i, j)`, a left click: nothing once the game is decided; the
     * first click only records where it was; later clicks open a closed cell
     * and leave flagged, question-marked and open cells alone.
     */
    method OpenCell(i: nat, j: nat)
      requires Valid() && i < modeInfo.y && j < modeInfo.x
      modifies this
      ensures Valid()
      ensures OpenCellDone(i, j)
    {
      if gameStatus.None? {
        if startPosition.Some? {
          if boardSurfaces[i][j].state == Close {
            UpdateCell(i, j, Open);
            currentPosition := Some(Position(i, j));
          }
        } else {
          startPosition := Some(Position(i, j));
          currentPosition := Some(Position(i, j));
        }
      }
    }

    /** The effect on `started`: once the bombs are placed, the first clicked cell is opened. */
    method StartedEffect()
      requires Valid()
      modifies this
      ensures Valid()
      ensures !(old(started) && old(startPosition).Some?) ==> unchanged(this)
      ensures old(started) && old(startPosition).Some? ==>
        OpenCellDone(old(startPosition).value.i, old(startPosition).value.j)
    {
      if started && startPosition.Some? {
        OpenCell(startPosition.value.i, startPosition.value.j);
      }
    }

    /**
     * The effect on `currentPosition`: opening a bomb loses; otherwise the
     * game is won when no safe cell is still closed; otherwise an open cell
     * with no bombs around has its surroundings opened by
     * `openAroundSafeCells`, whose body is not part of this model.
     */
    method PositionEffect(openAroundSafeCells: (Grid, Position) -> Grid)
      requires Valid()
      requires forall g: Grid, p: Position :: SameShape(openAroundSafeCells(g, p), g)
      modifies this
      ensures Valid()
      ensures modeInfo == old(modeInfo) && started == old(started)
      ensures startPosition == old(startPosition) && currentPosition == old(currentPosition)
      ensures old(currentPosition).None? ==> unchanged(this)
      ensures old(currentPosition).Some? ==>
        var p := old(currentPosition).value;
        var cell := old(boardSurfaces)[p.i][p.j];
        if cell.bomb then
          gameStatus == Some(Lose) && boardSurfaces == old(boardSurfaces)
        else if NoClosedSafeCell(old(boardSurfaces)) then
          gameStatus == Some(Win) && boardSurfaces == old(boardSurfaces)
        else
          gameStatus == old(gameStatus)
          && boardSurfaces == if cell.value == 0 && cell.state == Open
                              then openAroundSafeCells(old(boardSurfaces), p)
                              else old(boardSurfaces)
    {
      if currentPosition.Some? {
        var p := currentPosition.value;
        var cell := boardSurfaces[p.i][p.j];
        WinTestIsFilter(boardSurfaces);
        if cell.bomb {
          gameStatus := Some(Lose);
        } else if |CloseSafeRows(boardSurfaces)| == 0 {
          gameStatus := Some(Win);
        } else if cell.value == 0 && cell.state == Open {
          boardSurfaces := openAroundSafeCells(boardSurfaces, p);
        }
      }
    }

    /**
     * The effect on `gameStatus`: on a loss the board becomes
     * `openedBombCells(board)`, on a win `changedBombCellsToFlag(board)`;
     * the bodies of both are not part of this model.
     */
    method StatusEffect(openedBombCells: Grid -> Grid, changedBombCellsToFlag: Grid -> Grid)
      requires Valid()
      requires forall g: Grid :: SameShape(openedBombCells(g), g)
      requires forall g: Grid :: SameShape(changedBombCellsToFlag(g), g)
      modifies this
      ensures Valid()
      ensures modeInfo == old(modeInfo) && started == old(started) && startPosition == old(startPosition)
      ensures currentPosition == old(currentPosition) && gameStatus == old(gameStatus)
      ensures boardSurfaces == match old(gameStatus)
        case Some(Lose) => openedBombCells(old(boardSurfaces))
        case Some(Win) => changedBombCellsToFlag(old(boardSurfaces))
        case None => old(boardSurfaces)
    {
      match gameStatus
      case Some(Lose) =>
        boardSurfaces := openedBombCells(boardSurfaces);
      case Some(Win) =>
        boardSurfaces := changedBombCellsToFlag(boardSurfaces);
      case None =>
    }

    /**
     * `changeCell(e, i, j)`, a right click: once the game has started and
     * while it is undecided, the cell moves one step along the flag cycle.
     */
    method ChangeCell(i: nat, j: nat)
      requires Valid() && i < modeInfo.y && j < modeInfo.x
      modifies this
      ensures Valid()
      ensures modeInfo == old(modeInfo) && started == old(started) && startPosition == old(startPosition)
      ensures currentPosition == old(currentPosition) && gameStatus == old(gameStatus)
      ensures boardSurfaces ==
        if old(startPosition).Some? && old(gameStatus).None?
        then WithState(old(boardSurfaces), i, j, NextState(old(boardSurfaces)[i][j].state))
        else old(boardSurfaces)
      ensures old(boardSurfaces)[i][j].state == Open ==> boardSurfaces == old(boardSurfaces)
    {
      if startPosition.Some? && gameStatus.None? {
        WithSameState(boardSurfaces, i, j);
        UpdateCell(i, j, NextState(boardSurfaces[i][j].state));
      }
    }
  }
}
