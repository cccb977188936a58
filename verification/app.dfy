/** A click on a board cell: search from the cell under the agent to the
    clicked cell and, when a route exists, replace the agent's path with it
    minus its first cell (the cell the agent already stands on). */
module App {
  import opened Wrappers
  import opened Grid
  import opened PathFinder
  import opened Movement

  /** The path update that follows the search: an absent route leaves the
      state alone; a found route, minus its first cell, becomes the path. */
  function Redirect(s: Sim, found: Option<seq<Cell>>): (r: Sim)
    ensures r.pos == s.pos && r.items == s.items
    ensures found.None? ==> r == s
    ensures found.Some? && |found.value| > 0 ==> [found.value[0]] + r.path == found.value
    ensures found.Some? && |found.value| == 0 ==> r.path == []
  {
    match found
    case None => s
    case Some(p) =>
      var rest := if |p| == 0 then [] else p[1..];
      assert |p| > 0 ==> [p[0]] + rest == p;
      s.(path := rest)
  }

  /** `clickTile`: the new path leads from the cell under the agent to the
      clicked cell one unit step at a time, and is as short as possible when
      both cells lie on the board. */
  method ClickTile(s: Sim, target: Cell) returns (r: Sim)
    ensures r.pos == s.pos && r.items == s.items
    ensures r == s || (IsWalk([FloorCell(s.pos)] + r.path) &&
                       ([FloorCell(s.pos)] + r.path)[|r.path|] == target)
    ensures r == s || forall c :: c in r.path ==> InGrid(c)
    ensures FloorCell(s.pos) == target ==> r.path == []
    ensures InGrid(FloorCell(s.pos)) && InGrid(target) ==>
              |r.path| == Heuristic(FloorCell(s.pos), target) &&
              IsWalk([FloorCell(s.pos)] + r.path) &&
              ([FloorCell(s.pos)] + r.path)[|r.path|] == target
  {
    var start := FloorCell(s.pos);
    var found := FindPath(start, target);
    r := Redirect(s, found);
    if found.Some? {
      assert [found.value[0]] + r.path == found.value;
    }
  }

  /** The only cell one step from both `a` and the cell two rows below it is
      the cell in between. */
  lemma MiddleCell(a: Cell, p: Cell)
    requires Adjacent(a, p) && Adjacent(p, Cell(a.x, a.y + 2))
    ensures p == Cell(a.x, a.y + 1)
  {
  }

  /** The only shortest route from `a` to the cell two rows below it runs straight down. */
  lemma StraightRoute(a: Cell, path: seq<Cell>)
    requires |path| == 2 && IsWalk([a] + path) && ([a] + path)[2] == Cell(a.x, a.y + 2)
    ensures path == [Cell(a.x, a.y + 1), Cell(a.x, a.y + 2)]
  {
    var q := [a] + path;
    assert q[0] == a && q[1] == path[0] && q[2] == path[1];
    assert Adjacent(q[0], q[1]) && Adjacent(q[1], q[2]);
    MiddleCell(a, path[0]);
  }

  /** A route with a single waypoint is just the clicked cell. */
  lemma OneCellRoute(a: Cell, path: seq<Cell>, t: Cell)
    requires |path| == 1 && ([a] + path)[|path|] == t
    ensures path == [t]
  {
  }

  /** From the initial state, a click on (1, 0) and seven frames leave the
      agent standing exactly on (1, 0). */
  method WalkOut() returns (s: Sim)
    ensures s.pos == Pos(1.0, 0.0)
  {
    s := ClickTile(Initial, Cell(1, 0));
    assert FloorCell(Initial.pos) == Cell(0, 0);
    OneCellRoute(Cell(0, 0), s.path, Cell(1, 0));
    WalkToOneZero(s);
    s := Run(s, 7);
  }

  /** After `WalkOut`, a click on (0, 0) and four frames leave the agent at
      (0.4, 0), still over cell (0, 0). */
  method WalkOutAndBack() returns (s: Sim)
    ensures s.pos == Pos(0.4, 0.0)
  {
    s := WalkOut();
    assert FloorCell(s.pos) == Cell(1, 0);
    s := ClickTile(s, Cell(0, 0));
    OneCellRoute(Cell(1, 0), s.path, Cell(0, 0));
    WalkBackPart(s);
    s := Run(s, 4);
  }

  /** The agent can be steered off the board from the initial state. After
      `WalkOutAndBack` it is at (0.4, 0). A click on (0, 2) then gives the
      only shortest route (0, 1), (0, 2); while y still has a full step to go,
      x keeps stepping past 0, and three frames later the agent is at
      (-0.05, 0.45), over the off-board cell (-1, 0). Each route is pinned
      down by the contract of `ClickTile` alone. */
  method SteerOffBoard() returns (s: Sim)
    ensures s.pos == Pos(-0.05, 0.45)
    ensures FloorCell(s.pos) == Cell(-1, 0) && !InGrid(FloorCell(s.pos))
  {
    s := WalkOutAndBack();
    assert FloorCell(s.pos) == Cell(0, 0);
    s := ClickTile(s, Cell(0, 2));
    StraightRoute(Cell(0, 0), s.path);
    Overshoot(s);
    s := Run(s, 3);
  }
}
