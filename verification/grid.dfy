/** The 12-by-12 board, its cells, the Manhattan heuristic and 4-connected walks. */
module Grid {

  /** Width and height of the board. */
  const GRID: int := 12

  /** A board cell. The program keys its maps by the string "x, y"; that key is
      injective on integer pairs, so a value-equality pair loses nothing. */
  datatype Cell = Cell(x: int, y: int)

  predicate InGrid(c: Cell) {
    0 <= c.x < GRID && 0 <= c.y < GRID
  }

  /** Every cell of the board; a finite superset of every key the search creates. */
  const AllCells: set<Cell> := set x: int, y: int | 0 <= x < GRID && 0 <= y < GRID :: Cell(x, y)

  lemma InGridInAllCells(c: Cell)
    requires InGrid(c)
    ensures c in AllCells
  {
    assert Cell(c.x, c.y) in AllCells;
  }

  function Abs(n: int): nat {
    if n < 0 then -n else n
  }

  /** The Manhattan distance the search uses as its estimate of the remaining cost. */
  function Heuristic(a: Cell, b: Cell): (r: nat)
    ensures r == 0 <==> a == b
  {
    Abs(a.x - b.x) + Abs(a.y - b.y)
  }

  lemma HeuristicSymmetric(a: Cell, b: Cell)
    ensures Heuristic(a, b) == Heuristic(b, a)
  {
  }

  lemma HeuristicTriangle(a: Cell, b: Cell, c: Cell)
    ensures Heuristic(a, c) <= Heuristic(a, b) + Heuristic(b, c)
  {
  }

  /** Two cells are 4-adjacent when they differ by exactly 1 in exactly one axis. */
  predicate Adjacent(a: Cell, b: Cell) {
    Heuristic(a, b) == 1
  }

  /** The four step offsets the search tries, in the program's order:
      right, left, down, up. */
  function Dir(i: int): Cell
    requires 0 <= i < 4
  {
    if i == 0 then Cell(1, 0)
    else if i == 1 then Cell(-1, 0)
    else if i == 2 then Cell(0, 1)
    else Cell(0, -1)
  }

  function Neighbour(c: Cell, i: int): (n: Cell)
    requires 0 <= i < 4
    ensures Adjacent(c, n)
  {
    Cell(c.x + Dir(i).x, c.y + Dir(i).y)
  }

  /** The four offsets reach exactly the 4-adjacent cells. */
  lemma AdjacentIsNeighbour(a: Cell, b: Cell)
    ensures Adjacent(a, b) <==> exists i :: 0 <= i < 4 && Neighbour(a, i) == b
  {
    if Adjacent(a, b) {
      if b.x == a.x + 1 {
        assert Neighbour(a, 0) == b;
      } else if b.x == a.x - 1 {
        assert Neighbour(a, 1) == b;
      } else if b.y == a.y + 1 {
        assert Neighbour(a, 2) == b;
      } else {
        assert Neighbour(a, 3) == b;
      }
    }
  }

  /** A sequence of cells in which each consecutive pair is 4-adjacent. */
  predicate IsWalk(p: seq<Cell>) {
    forall i :: 0 < i < |p| ==> Adjacent(p[i - 1], p[i])
  }

  /** A walk stays a walk when a cell adjacent to its first cell is put in front. */
  lemma PrependWalk(c: Cell, p: seq<Cell>)
    requires IsWalk(p) && (|p| > 0 ==> Adjacent(c, p[0]))
    ensures IsWalk([c] + p)
  {
    var q := [c] + p;
    forall i | 0 < i < |q|
      ensures Adjacent(q[i - 1], q[i])
    {
      if i > 1 {
        assert q[i - 1] == p[i - 2] && q[i] == p[i - 1];
      }
    }
  }

  /** No walk is shorter than the Manhattan distance between its endpoints. */
  lemma {:induction false} WalkAtLeastDistance(p: seq<Cell>)
    requires |p| > 0 && IsWalk(p)
    ensures Heuristic(p[0], p[|p| - 1]) <= |p| - 1
  {
    if |p| > 1 {
      var q := p[..|p| - 1];
      assert IsWalk(q) by {
        forall i | 0 < i < |q|
          ensures Adjacent(q[i - 1], q[i])
        {
          assert q[i - 1] == p[i - 1] && q[i] == p[i];
        }
      }
      WalkAtLeastDistance(q);
      assert Adjacent(p[|p| - 2], p[|p| - 1]);
      HeuristicTriangle(p[0], p[|p| - 2], p[|p| - 1]);
    }
  }
}
