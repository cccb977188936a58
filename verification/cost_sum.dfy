/** A potential for the termination of the search: the sum of the recorded
    costs over the cells of the board. Relaxation only ever lowers a cost or
    adds a cell, so the pair (cells still without a cost, this sum) falls. */
module CostSum {
  import opened Grid

  /** The cost of `c`, or 0 when it has none. */
  function Val(g: map<Cell, nat>, c: Cell): nat {
    if c in g then g[c] else 0
  }

  function ColumnSum(g: map<Cell, nat>, x: int, h: int): nat
    decreases h
  {
    if h <= 0 then 0 else ColumnSum(g, x, h - 1) + Val(g, Cell(x, h - 1))
  }

  function RowsSum(g: map<Cell, nat>, w: int, h: int): nat
    decreases w
  {
    if w <= 0 then 0 else RowsSum(g, w - 1, h) + ColumnSum(g, w - 1, h)
  }

  /** The sum of all costs recorded for cells of the board. */
  function GridSum(g: map<Cell, nat>): nat {
    RowsSum(g, GRID, GRID)
  }

  /** No board cell costs more in `g1` than in `g2`. */
  ghost predicate BelowOnBoard(g1: map<Cell, nat>, g2: map<Cell, nat>) {
    forall c :: InGrid(c) ==> Val(g1, c) <= Val(g2, c)
  }

  lemma {:induction false} ColumnSumLe(g1: map<Cell, nat>, g2: map<Cell, nat>, x: int, h: int)
    requires BelowOnBoard(g1, g2) && 0 <= x < GRID && h <= GRID
    ensures ColumnSum(g1, x, h) <= ColumnSum(g2, x, h)
    decreases h
  {
    if h > 0 {
      ColumnSumLe(g1, g2, x, h - 1);
      assert InGrid(Cell(x, h - 1));
    }
  }

  lemma {:induction false} ColumnSumLt(g1: map<Cell, nat>, g2: map<Cell, nat>, x: int, h: int, k: Cell)
    requires BelowOnBoard(g1, g2) && 0 <= x < GRID && h <= GRID
    requires k.x == x && 0 <= k.y < h && Val(g1, k) < Val(g2, k)
    ensures ColumnSum(g1, x, h) < ColumnSum(g2, x, h)
    decreases h
  {
    if k.y == h - 1 {
      ColumnSumLe(g1, g2, x, h - 1);
    } else {
      ColumnSumLt(g1, g2, x, h - 1, k);
      assert InGrid(Cell(x, h - 1));
    }
  }

  lemma {:induction false} RowsSumLe(g1: map<Cell, nat>, g2: map<Cell, nat>, w: int, h: int)
    requires BelowOnBoard(g1, g2) && w <= GRID && h <= GRID
    ensures RowsSum(g1, w, h) <= RowsSum(g2, w, h)
    decreases w
  {
    if w > 0 {
      RowsSumLe(g1, g2, w - 1, h);
      ColumnSumLe(g1, g2, w - 1, h);
      assert RowsSum(g1, w, h) == RowsSum(g1, w - 1, h) + ColumnSum(g1, w - 1, h);
      assert RowsSum(g2, w, h) == RowsSum(g2, w - 1, h) + ColumnSum(g2, w - 1, h);
    }
  }

  lemma {:induction false} RowsSumLt(g1: map<Cell, nat>, g2: map<Cell, nat>, w: int, h: int, k: Cell)
    requires BelowOnBoard(g1, g2) && w <= GRID && h <= GRID
    requires 0 <= k.x < w && 0 <= k.y < h && Val(g1, k) < Val(g2, k)
    ensures RowsSum(g1, w, h) < RowsSum(g2, w, h)
    decreases w
  {
    assert RowsSum(g1, w, h) == RowsSum(g1, w - 1, h) + ColumnSum(g1, w - 1, h);
    assert RowsSum(g2, w, h) == RowsSum(g2, w - 1, h) + ColumnSum(g2, w - 1, h);
    if k.x == w - 1 {
      RowsSumLe(g1, g2, w - 1, h);
      ColumnSumLt(g1, g2, w - 1, h, k);
    } else {
      RowsSumLt(g1, g2, w - 1, h, k);
      ColumnSumLe(g1, g2, w - 1, h);
    }
  }

  /** Lowering the cost of one board cell, and raising none, lowers the sum. */
  lemma GridSumDecreases(g1: map<Cell, nat>, g2: map<Cell, nat>, k: Cell)
    requires BelowOnBoard(g1, g2)
    requires InGrid(k) && Val(g1, k) < Val(g2, k)
    ensures GridSum(g1) < GridSum(g2)
  {
    RowsSumLt(g1, g2, GRID, GRID, k);
  }
}
