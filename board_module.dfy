/**
 * The board helpers of Board/Module: the shuffle that places the bombs, the
 * neighbour count written into every safe cell, and the flag cycle of a
 * right click.
 */
module BoardModule {
  import opened CellTypes

  // ---------------------------------------------------------------------
  // Counting bombs: `cells.filter(({ bomb }) => bomb).length`
  // ---------------------------------------------------------------------

  /** The number of bomb cells in `s`. */
  function Bombs(s: seq<Cell>): nat {
    if s == [] then 0 else Bombs(s[..|s| - 1]) + (if s[|s| - 1].bomb then 1 else 0)
  }

  lemma BombsPush(s: seq<Cell>, c: Cell)
    ensures Bombs(s + [c]) == Bombs(s) + (if c.bomb then 1 else 0)
  {
    assert (s + [c])[..|s|] == s;
  }

  lemma {:induction false} BombsConcat(a: seq<Cell>, b: seq<Cell>)
    ensures Bombs(a + b) == Bombs(a) + Bombs(b)
    decreases |b|
  {
    if b == [] {
      assert a + b == a;
    } else {
      var b' := b[..|b| - 1];
      BombsConcat(a, b');
      assert a + b == (a + b') + [b[|b| - 1]];
      assert b == b' + [b[|b| - 1]];
      BombsPush(a + b', b[|b| - 1]);
      BombsPush(b', b[|b| - 1]);
    }
  }

  /** Rearranging cells does not change how many bombs there are. */
  lemma {:induction false} BombsOfPermutation(a: seq<Cell>, b: seq<Cell>)
    requires multiset(a) == multiset(b)
    ensures Bombs(a) == Bombs(b)
    decreases |a|
  {
    if a == [] {
      assert |b| == |multiset(b)| == 0;
    } else {
      var x := a[|a| - 1];
      var a' := a[..|a| - 1];
      assert a == a' + [x];
      assert x in multiset(b);
      var m :| 0 <= m < |b| && b[m] == x;
      var b' := b[..m] + b[m + 1..];
      assert b == b[..m] + [x] + b[m + 1..];
      assert multiset(a) == multiset(a') + multiset{x};
      assert multiset(b) == multiset(b[..m]) + multiset{x} + multiset(b[m + 1..]);
      assert multiset(b') == multiset(b[..m]) + multiset(b[m + 1..]);
      assert multiset(a') == multiset(a) - multiset{x};
      assert multiset(b') == multiset(b) - multiset{x};
      BombsOfPermutation(a', b');
      BombsPush(a', x);
      BombsConcat(b[..m] + [x], b[m + 1..]);
      BombsPush(b[..m], x);
      BombsConcat(b[..m], b[m + 1..]);
    }
  }

  // ---------------------------------------------------------------------
  // shuffle
  // ---------------------------------------------------------------------

  /**
   * The random draws of `shuffle` on a pool of `n` cells: the draw of
   * iteration `t` is an index into the pool as it is then, which holds
   * `n - t` cells. `Math.floor(Math.random() * n)` is any such sequence.
   */
  predicate ValidPicks(picks: seq<nat>, n: nat) {
    |picks| == n && forall t :: 0 <= t < n ==> picks[t] < n - t
  }

  /**
   * The pool after cell `k` is drawn: the last cell moves into slot `k` and
   * the pool loses its last slot. Exactly the drawn cell leaves the pool.
   */
  function TakeOut(pool: seq<Cell>, k: nat): (r: seq<Cell>)
    requires k < |pool|
    ensures |r| == |pool| - 1
    ensures multiset(r) + multiset{pool[k]} == multiset(pool)
  {
    var n := |pool|;
    var r := pool[k := pool[n - 1]][..n - 1];
    assert multiset(r) + multiset{pool[k]} == multiset(pool) by {
      if k == n - 1 {
        assert r == pool[..n - 1];
        assert pool == r + [pool[k]];
      } else {
        assert pool == pool[..k] + [pool[k]] + pool[k + 1..n - 1] + [pool[n - 1]];
        assert r == pool[..k] + [pool[n - 1]] + pool[k + 1..n - 1];
      }
    }
    r
  }

  /** The cells of `pool` in the order `shuffle` draws them with `picks`. */
  function Drawn(pool: seq<Cell>, picks: seq<nat>): (d: seq<Cell>)
    requires ValidPicks(picks, |pool|)
    ensures |d| == |pool|
    decreases |pool|
  {
    if |pool| == 0 then
      []
    else
      var k := picks[0];
      assert ValidPicks(picks[1..], |pool| - 1) by {
        assert forall t :: 0 <= t < |pool| - 1 ==> picks[1..][t] == picks[t + 1];
      }
      [pool[k]] + Drawn(TakeOut(pool, k), picks[1..])
  }

  /** Every cell of the pool is drawn exactly once, whatever the picks. */
  lemma {:induction false} DrawnPermutation(pool: seq<Cell>, picks: seq<nat>)
    requires ValidPicks(picks, |pool|)
    ensures multiset(Drawn(pool, picks)) == multiset(pool)
    decreases |pool|
  {
    if |pool| > 0 {
      DrawStep(pool, picks);
      DrawnPermutation(TakeOut(pool, picks[0]), picks[1..]);
    }
  }

  /**
   * The output index at which `shuffle` inserts the safe cell for a first
   * click at (i, j): `(i+1)*(j+1)-1`. This is not the row-major index
   * `i*x+j` of the click (see `StartIndexIsRowMajor` in the Board module).
   */
  function StartIndex(start: Position): int {
    (start.i + 1) * (start.j + 1) - 1
  }

  /**
   * `d` with the safe `InitialCell` inserted at index `p`: removing that
   * index gives `d` back.
   */
  function PlaceStart(d: seq<Cell>, p: nat): (r: seq<Cell>)
    requires p <= |d|
    ensures |r| == |d| + 1 && r[p] == InitialCell
    ensures r[..p] + r[p + 1..] == d
  {
    var r := d[..p] + [InitialCell] + d[p..];
    assert r[..p] == d[..p] && r[p + 1..] == d[p..];
    r
  }

  /**
   * What `shuffle` returns: the cells in drawn order, with the safe cell
   * inserted at output index `p` when the loop reaches that index, which
   * happens exactly when `0 <= p < |pool|`.
   */
  function Shuffled(pool: seq<Cell>, picks: seq<nat>, p: int): seq<Cell>
    requires ValidPicks(picks, |pool|)
  {
    if 0 <= p < |pool| then PlaceStart(Drawn(pool, picks), p) else Drawn(pool, picks)
  }

  /** One draw: the first pick takes its cell out of the pool. */
  lemma DrawStep(pool: seq<Cell>, picks: seq<nat>)
    requires ValidPicks(picks, |pool|) && |pool| > 0
    ensures picks[0] < |pool| && ValidPicks(picks[1..], |pool| - 1)
    ensures Drawn(pool, picks) == [pool[picks[0]]] + Drawn(TakeOut(pool, picks[0]), picks[1..])
  {
    assert forall t :: 0 <= t < |pool| - 1 ==> picks[1..][t] == picks[t + 1];
  }

  lemma AppendAssoc<T>(a: seq<T>, b: seq<T>, c: seq<T>)
    ensures a + b + c == a + (b + c)
  {
  }

  /** Appending a drawn cell after, at or before the insertion point. */
  lemma PlaceStartPush(drawn: seq<Cell>, p: int, c: Cell)
    ensures 0 <= p < |drawn| ==> PlaceStart(drawn, p) + [c] == PlaceStart(drawn + [c], p)
    ensures 0 <= p == |drawn| ==> drawn + [InitialCell] + [c] == PlaceStart(drawn + [c], p)
  {
    if 0 <= p <= |drawn| {
      assert (drawn + [c])[..p] == drawn[..p];
      assert (drawn + [c])[p..] == drawn[p..] + [c];
    }
  }

  /**
   * The state of `shuffle` after `t` draws: `pool` is what is left to draw,
   * `drawn` what has been drawn, and `out` is `drawn` with the safe cell
   * inserted at index `p` once `t` has passed `p`.
   */
  ghost predicate ShuffleInvariant(cells: seq<Cell>, picks: seq<nat>, p: int, t: nat,
                                   pool: seq<Cell>, drawn: seq<Cell>, out: seq<Cell>)
  {
    ValidPicks(picks, |cells|) && t + |pool| == |cells| && |drawn| == t
    && ValidPicks(picks[t..], |pool|)
    && drawn + Drawn(pool, picks[t..]) == Drawn(cells, picks)
    && (0 <= p < t ==> out == PlaceStart(drawn, p))
    && (!(0 <= p < t) ==> out == drawn)
  }

  /** One iteration of the `shuffle` loop keeps its invariant. */
  lemma ShuffleStep(cells: seq<Cell>, picks: seq<nat>, p: int, t: nat,
                    pool: seq<Cell>, drawn: seq<Cell>, out: seq<Cell>)
    requires ShuffleInvariant(cells, picks, p, t, pool, drawn, out) && |pool| > 0
    ensures picks[t] < |pool|
    ensures var k := picks[t];
      ShuffleInvariant(cells, picks, p, t + 1, TakeOut(pool, k), drawn + [pool[k]],
                       (if p == |out| then out + [InitialCell] else out) + [pool[k]])
  {
    var k := picks[t];
    DrawStep(pool, picks[t..]);
    assert picks[t..][1..] == picks[t + 1..];
    PlaceStartPush(drawn, p, pool[k]);
    AppendAssoc(drawn, [pool[k]], Drawn(TakeOut(pool, k), picks[t + 1..]));
  }

  /** `shuffle(cells, start)` with the random draws `picks`. */
  method Shuffle(cells: seq<Cell>, start: Position, picks: seq<nat>) returns (out: seq<Cell>)
    requires ValidPicks(picks, |cells|)
    ensures out == Shuffled(cells, picks, StartIndex(start))
  {
    ghost var p := StartIndex(start);
    ghost var drawn: seq<Cell> := [];
    var pool := cells;
    var t := 0;
    out := [];
    assert picks[0..] == picks;
    while |pool| > 0
      invariant ShuffleInvariant(cells, picks, p, t, pool, drawn, out)
      decreases |pool|
    {
      var n := |pool|;
      ShuffleStep(cells, picks, p, t, pool, drawn, out);
      var k := picks[t];
      assert (start.i + 1) * (start.j + 1) == p + 1;
      if (start.i + 1) * (start.j + 1) == |out| + 1 {
        out := out + [InitialCell];
      }
      out := out + [pool[k]];
      drawn := drawn + [pool[k]];
      ghost var next := TakeOut(pool, k);
      pool := pool[k := pool[n - 1]];
      pool := pool[..n - 1];
      assert pool == next;
      t := t + 1;
    }
  }

  /**
   * The output of `shuffle` is the input rearranged, plus one inserted safe
   * cell at index `p` when `0 <= p < |pool|`; otherwise it is only the input
   * rearranged.
   */
  lemma ShuffledCells(pool: seq<Cell>, picks: seq<nat>, p: int)
    requires ValidPicks(picks, |pool|)
    ensures var s := Shuffled(pool, picks, p);
      if 0 <= p < |pool| then
        |s| == |pool| + 1 && s[p] == InitialCell
        && multiset(s) == multiset(pool) + multiset{InitialCell}
        && multiset(s[..p] + s[p + 1..]) == multiset(pool)
      else
        |s| == |pool| && multiset(s) == multiset(pool)
  {
    var d := Drawn(pool, picks);
    DrawnPermutation(pool, picks);
    if 0 <= p < |pool| {
      var s := PlaceStart(d, p);
      assert s == d[..p] + [InitialCell] + d[p..];
      assert d == d[..p] + d[p..];
    }
  }

  /** `shuffle` neither adds nor loses a bomb. */
  lemma ShuffledBombs(pool: seq<Cell>, picks: seq<nat>, p: int)
    requires ValidPicks(picks, |pool|)
    ensures Bombs(Shuffled(pool, picks, p)) == Bombs(pool)
  {
    var d := Drawn(pool, picks);
    DrawnPermutation(pool, picks);
    BombsOfPermutation(d, pool);
    if 0 <= p < |pool| {
      assert PlaceStart(d, p) == d[..p] + [InitialCell] + d[p..];
      assert d == d[..p] + d[p..];
      BombsConcat(d[..p], d[p..]);
      BombsConcat(d[..p] + [InitialCell], d[p..]);
      BombsPush(d[..p], InitialCell);
    }
  }

  // ---------------------------------------------------------------------
  // setBombCount
  // ---------------------------------------------------------------------

  /** (a, b) is one of the eight cells around (i, j). */
  predicate Adjacent(a: int, b: int, i: int, j: int) {
    (a != i || b != j) && i - 1 <= a <= i + 1 && j - 1 <= b <= j + 1
  }

  /** Bombs among the first `n` cells of row `a` that are adjacent to (i, j). */
  function RowBombsAround(g: Grid, a: nat, n: nat, i: int, j: int): nat
    requires a < |g| && n <= |g[a]|
  {
    if n == 0 then 0
    else RowBombsAround(g, a, n - 1, i, j) + (if Adjacent(a, n - 1, i, j) && g[a][n - 1].bomb then 1 else 0)
  }

  /** Bombs among the first `m` rows of `g` that are adjacent to (i, j). */
  function GridBombsAround(g: Grid, m: nat, i: int, j: int): nat
    requires m <= |g|
  {
    if m == 0 then 0 else GridBombsAround(g, m - 1, i, j) + RowBombsAround(g, m - 1, |g[m - 1]|, i, j)
  }

  /**
   * The number of bomb cells of `g` adjacent to (i, j), counted over the
   * whole grid: fewer neighbours exist at the edges and corners.
   */
  function BombsAround(g: Grid, i: int, j: int): nat {
    GridBombsAround(g, |g|, i, j)
  }

  /** 1 if (a, b) is a cell of `g` holding a bomb, else 0. */
  function BombAt(g: Grid, a: int, b: int): nat {
    if 0 <= a < |g| && 0 <= b < |g[a]| && g[a][b].bomb then 1 else 0
  }

  /** The bombs of row `a` adjacent to (i, j). */
  function RowNear(g: Grid, a: int, i: int, j: int): nat {
    if 0 <= a < |g| then
      BombAt(g, a, j - 1) + (if a != i then BombAt(g, a, j) else 0) + BombAt(g, a, j + 1)
    else 0
  }

  lemma {:induction false} RowBombsAroundLocal(g: Grid, a: nat, n: nat, i: int, j: int)
    requires a < |g| && n <= |g[a]|
    ensures RowBombsAround(g, a, n, i, j) ==
      if i - 1 <= a <= i + 1 then
        (if j - 1 < n then BombAt(g, a, j - 1) else 0)
        + (if a != i && j < n then BombAt(g, a, j) else 0)
        + (if j + 1 < n then BombAt(g, a, j + 1) else 0)
      else 0
    decreases n
  {
    if n > 0 {
      RowBombsAroundLocal(g, a, n - 1, i, j);
    }
  }

  lemma {:induction false} GridBombsAroundLocal(g: Grid, m: nat, i: int, j: int)
    requires m <= |g|
    ensures GridBombsAround(g, m, i, j) ==
      (if i - 1 < m then RowNear(g, i - 1, i, j) else 0)
      + (if i < m then RowNear(g, i, i, j) else 0)
      + (if i + 1 < m then RowNear(g, i + 1, i, j) else 0)
    decreases m
  {
    if m > 0 {
      GridBombsAroundLocal(g, m - 1, i, j);
      RowBombsAroundLocal(g, m - 1, |g[m - 1]|, i, j);
    }
  }

  /**
   * The count over the whole grid is the sum over the eight neighbour
   * positions, in the order `setBombCount` visits them, so it is at most 8.
   */
  lemma BombsAroundNeighbours(g: Grid, i: int, j: int)
    ensures BombsAround(g, i, j) ==
      BombAt(g, i - 1, j - 1) + BombAt(g, i - 1, j) + BombAt(g, i - 1, j + 1) + BombAt(g, i, j + 1)
      + BombAt(g, i + 1, j + 1) + BombAt(g, i + 1, j) + BombAt(g, i + 1, j - 1) + BombAt(g, i, j - 1)
    ensures BombsAround(g, i, j) <= 8
  {
    GridBombsAroundLocal(g, |g|, i, j);
  }

  /**
   * `targetCellsIndex`: the in-bounds neighbours of (i, j) in the order the
   * source visits them (upper left, up, upper right, right, lower right,
   * down, lower left, left); their bombs are the bombs around (i, j).
   */
  method AroundCells(board: Grid, i: nat, j: nat) returns (targetCellsIndex: seq<Cell>)
    requires Rectangular(board) && i < |board| && j < |board[i]|
    ensures |targetCellsIndex| <= 8
    ensures Bombs(targetCellsIndex) == BombsAround(board, i, j)
  {
    targetCellsIndex := PushUpperAndRight([], board, i, j);
    targetCellsIndex := PushLowerAndLeft(targetCellsIndex, board, i, j);
    BombsAroundNeighbours(board, i, j);
  }

  /** The first four tests of `setBombCount`: upper left, up, upper right, right. */
  method PushUpperAndRight(t: seq<Cell>, board: Grid, i: nat, j: nat) returns (r: seq<Cell>)
    requires Rectangular(board) && i < |board| && j < |board[i]|
    ensures |r| <= |t| + 4
    ensures Bombs(r) == Bombs(t) + BombAt(board, i - 1, j - 1) + BombAt(board, i - 1, j)
      + BombAt(board, i - 1, j + 1) + BombAt(board, i, j + 1)
  {
    assert i > 0 ==> |board[i - 1]| == |board[0]|;
    assert |board[i]| == |board[0]|;
    r := t;
    // upper left
    r := PushIfInside(r, board, i - 1, j - 1, j - 1 >= 0 && i - 1 >= 0);
    // up
    r := PushIfInside(r, board, i - 1, j, i - 1 >= 0);
    // upper right
    r := PushIfInside(r, board, i - 1, j + 1, j + 1 < |board[i]| && i - 1 >= 0);
    // right
    r := PushIfInside(r, board, i, j + 1, j + 1 < |board[i]|);
  }

  /** The last four tests of `setBombCount`: lower right, down, lower left, left. */
  method PushLowerAndLeft(t: seq<Cell>, board: Grid, i: nat, j: nat) returns (r: seq<Cell>)
    requires Rectangular(board) && i < |board| && j < |board[i]|
    ensures |r| <= |t| + 4
    ensures Bombs(r) == Bombs(t) + BombAt(board, i + 1, j + 1) + BombAt(board, i + 1, j)
      + BombAt(board, i + 1, j - 1) + BombAt(board, i, j - 1)
  {
    assert i + 1 < |board| ==> |board[i + 1]| == |board[0]|;
    assert |board[i]| == |board[0]|;
    r := t;
    // lower right
    r := PushIfInside(r, board, i + 1, j + 1, j + 1 < |board[i]| && i + 1 < |board|);
    // down
    r := PushIfInside(r, board, i + 1, j, i + 1 < |board|);
    // lower left
    r := PushIfInside(r, board, i + 1, j - 1, j - 1 >= 0 && i + 1 < |board|);
    // left
    r := PushIfInside(r, board, i, j - 1, j - 1 >= 0);
  }

  /**
   * One `if (...) targetCellsIndex.push(board[a][b])` of `setBombCount`: the
   * source's bounds test `inside` is exactly "(a, b) is on the board".
   */
  method PushIfInside(t: seq<Cell>, board: Grid, a: int, b: int, inside: bool) returns (r: seq<Cell>)
    requires inside <==> 0 <= a < |board| && 0 <= b < |board[a]|
    ensures inside ==> r == t + [board[a][b]]
    ensures !inside ==> r == t
    ensures Bombs(r) == Bombs(t) + BombAt(board, a, b)
  {
    r := t;
    if inside {
      BombsPush(t, board[a][b]);
      r := r + [board[a][b]];
    }
  }

  /**
   * The cell `setBombCount` writes at (i, j): a bomb cell as it is, any
   * other cell with its neighbouring bombs as `value`.
   */
  function CountedCell(g: Grid, i: nat, j: nat): Cell
    requires i < |g| && j < |g[i]|
  {
    if g[i][j].bomb then g[i][j] else g[i][j].(value := BombsAround(g, i, j))
  }

  /** `r` is what `setBombCount` makes of `g`. */
  predicate Counted(r: Grid, g: Grid) {
    SameShape(r, g)
    && forall i, j :: 0 <= i < |g| && 0 <= j < |g[i]| ==> r[i][j] == CountedCell(g, i, j)
  }

  /** `setBombCount`. */
  method SetBombCount(board: Grid) returns (newArray: Grid)
    requires Rectangular(board)
    ensures Counted(newArray, board)
  {
    newArray := [];
    var i := 0;
    while i < |board|
      invariant 0 <= i <= |board| && |newArray| == i
      invariant forall a :: 0 <= a < i ==> |newArray[a]| == |board[a]|
      invariant forall a, b :: 0 <= a < i && 0 <= b < |board[a]| ==> newArray[a][b] == CountedCell(board, a, b)
    {
      var newRow: seq<Cell> := [];
      var j := 0;
      while j < |board[i]|
        invariant 0 <= j <= |board[i]| && |newRow| == j
        invariant forall b :: 0 <= b < j ==> newRow[b] == CountedCell(board, i, b)
      {
        if board[i][j].bomb {
          newRow := newRow + [board[i][j]];
        } else {
          var targetCellsIndex := AroundCells(board, i, j);
          newRow := newRow + [board[i][j].(value := Bombs(targetCellsIndex))];
        }
        j := j + 1;
      }
      newArray := newArray + [newRow];
      i := i + 1;
    }
  }

  /**
   * `setBombCount` keeps every cell's state and bomb flag, copies bomb cells
   * unchanged, and gives every other cell a count between 0 and 8.
   */
  lemma CountedCells(r: Grid, g: Grid)
    requires Counted(r, g)
    ensures forall i, j :: 0 <= i < |g| && 0 <= j < |g[i]| ==>
      r[i][j].state == g[i][j].state && r[i][j].bomb == g[i][j].bomb
    ensures forall i, j :: 0 <= i < |g| && 0 <= j < |g[i]| && g[i][j].bomb ==> r[i][j] == g[i][j]
    ensures forall i, j :: 0 <= i < |g| && 0 <= j < |g[i]| && !g[i][j].bomb ==>
      r[i][j].value == BombsAround(g, i, j) && 0 <= r[i][j].value <= 8
  {
    forall i, j | 0 <= i < |g| && 0 <= j < |g[i]|
      ensures BombsAround(g, i, j) <= 8
    {
      BombsAroundNeighbours(g, i, j);
    }
  }

  // ---------------------------------------------------------------------
  // nextState
  // ---------------------------------------------------------------------

  /**
   * `nextState`: the right-click cycle close -> flag -> onHold -> close; an
   * open cell stays open and no other state becomes open.
   */
  function NextState(state: CellState): (r: CellState)
    ensures (r == Open) <==> (state == Open)
  {
    match state
    case Close => Flag
    case Flag => OnHold
    case OnHold => Close
    case Open => state
  }

  /** Three right clicks bring every state back; only `Open` is fixed. */
  lemma NextStateCycle(state: CellState)
    ensures NextState(NextState(NextState(state))) == state
    ensures NextState(state) == state <==> state == Open
    ensures NextState(Close) == Flag && NextState(Flag) == OnHold && NextState(OnHold) == Close
  {
  }
}
