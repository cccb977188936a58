/** `findPath`: A* from `start` to `end` on the 12-by-12 board with unit step
    cost and the Manhattan heuristic. The result includes `start`; `None`
    stands for the program's `undefined` once the open list runs out. */
module PathFinder {
  import opened Wrappers
  import opened Grid
  import opened OpenList
  import opened CostSum
  import opened Search

  /** The facts about the predecessor map that the route rebuild relies on:
      only `start` lacks a predecessor among cells with a cost, and each
      predecessor link joins a board cell to an adjacent, strictly cheaper
      cell with a cost. */
  predicate Links(s: SearchState, start: Cell) {
    && (forall c :: c in s.g && c !in s.cameFrom ==> c == start)
    && (forall c :: c in s.cameFrom ==>
          && c in s.g && s.cameFrom[c] in s.g && InGrid(c)
          && Adjacent(s.cameFrom[c], c) && s.g[s.cameFrom[c]] < s.g[c])
  }

  lemma InvLinks(s: SearchState, start: Cell, end: Cell)
    requires Inv(s, start, end)
    ensures Links(s, start)
  {
    forall c | c in s.cameFrom
      ensures InGrid(c)
    {
      PredecessorKeyOnBoard(s, start, c);
    }
  }

  /** Walks the predecessor map back from `last`, prepending each cell, until
      a cell without a predecessor is reached; that cell is `start`. */
  method Reconstruct(s: SearchState, start: Cell, last: Cell) returns (path: seq<Cell>)
    requires Links(s, start) && last in s.g
    ensures |path| > 0 && path[0] == start && path[|path| - 1] == last
    ensures IsWalk(path)
    ensures |path| <= s.g[last] + 1
    ensures forall d :: d in path ==> d in s.g
    ensures forall i :: 0 < i < |path| ==> InGrid(path[i])
  {
    path := [];
    var c: Option<Cell> := Some(last);
    while c.Some?
      invariant c.Some? ==> c.value in s.g
      invariant c.Some? ==> |path| + s.g[c.value] <= s.g[last]
      invariant c.Some? && |path| > 0 ==> Adjacent(c.value, path[0])
      invariant c.Some? && |path| == 0 ==> c.value == last
      invariant c.None? ==> |path| > 0 && path[0] == start && |path| <= s.g[last] + 1
      invariant |path| > 0 ==> path[|path| - 1] == last
      invariant IsWalk(path)
      invariant forall d :: d in path ==> d in s.g
      invariant forall i :: 0 < i < |path| ==> InGrid(path[i])
      invariant c.Some? && |path| > 0 ==> InGrid(path[0])
      decreases if c.Some? then s.g[c.value] + 1 else 0
    {
      PrependWalk(c.value, path);
      path := [c.value] + path;
      c := if c.value in s.cameFrom then Some(s.cameFrom[c.value]) else None;
    }
  }

  /** The termination measure of the search loop falls from `s` to `s'`:
      fewer board cells without a cost, or the same cells and a lower cost
      sum, or neither and a shorter open list. */
  ghost predicate MeasureFalls(s: SearchState, s': SearchState) {
    || AllCells - s'.g.Keys < AllCells - s.g.Keys
    || (&& AllCells - s'.g.Keys == AllCells - s.g.Keys
        && (|| GridSum(s'.g) < GridSum(s.g)
            || (GridSum(s'.g) == GridSum(s.g) && |s'.open| < |s.open|)))
  }

  lemma StepDecreases(s: SearchState, s': SearchState, rest: seq<Cell>, current: Cell)
    requires current in s.g && |rest| < |s.open|
    requires RelaxedAround(s.(open := rest), s', current)
    ensures MeasureFalls(s, s')
  {
    var s1 := s.(open := rest);
    forall c | c in s'.g.Keys - s.g.Keys
      ensures c in AllCells
    {
      assert Improved(s1, s', c);
      InGridInAllCells(c);
    }
  }

  /** The loop invariant of `FindPath`. */
  ghost predicate Running(s: SearchState, start: Cell, end: Cell) {
    && Inv(s, start, end)
    && (InGrid(start) && InGrid(end) ==> |s.open| > 0)
    && (start == end ==> s == Init(start))
  }

  /** One iteration that does not find `end` keeps the loop invariant and
      lowers the termination measure. */
  lemma Iteration(s: SearchState, start: Cell, end: Cell)
    requires Running(s, start, end) && |s.open| > 0
    requires SortOpen(s.open, s.g, end)[0] != end
    ensures var sorted := SortOpen(s.open, s.g, end);
            var s' := Expand(s.(open := sorted[1..]), sorted[0]);
            Running(s', start, end) && MeasureFalls(s, s')
  {
    var sorted := SortOpen(s.open, s.g, end);
    SortedFront(s.open, s.g, end);
    StepPreservesInv(s, start, end);
    var s' := Expand(s.(open := sorted[1..]), sorted[0]);
    StepDecreases(s, s', sorted[1..], sorted[0]);
    if InGrid(start) && InGrid(end) {
      OpenNonEmpty(s', start, end);
    }
  }

  /** The branch taken when `end` reaches the front of the sorted open list:
      rebuild the route to it. With both endpoints on the board the route is
      a shortest one. */
  method Finish(s: SearchState, start: Cell, end: Cell) returns (path: seq<Cell>)
    requires Inv(s, start, end) && IsFront(s.open, s.g, end, end)
    ensures |path| > 0 && path[0] == start && path[|path| - 1] == end
    ensures IsWalk(path)
    ensures forall i :: 0 < i < |path| ==> InGrid(path[i])
    ensures InGrid(start) ==> forall i :: 0 <= i < |path| ==> InGrid(path[i])
    ensures InGrid(start) && InGrid(end) ==> |path| == Heuristic(start, end) + 1
    ensures s == Init(start) ==> path == [start]
  {
    InvLinks(s, start, end);
    path := Reconstruct(s, start, end);
    if InGrid(start) && InGrid(end) {
      OptimalOnPop(s, start, end);
      WalkAtLeastDistance(path);
    }
  }

  /** One pass of the search loop on a non-empty open list: sort the open
      list, take its front, and either rebuild the route (when the front is
      `end`) or relax the front's four neighbours. */
  method Iterate(s: SearchState, start: Cell, end: Cell) returns (found: Option<seq<Cell>>, s': SearchState)
    requires Running(s, start, end) && |s.open| > 0
    ensures found.Some? ==> |found.value| > 0 && found.value[0] == start && found.value[|found.value| - 1] == end
    ensures found.Some? ==> IsWalk(found.value)
    ensures found.Some? ==> forall i :: 0 < i < |found.value| ==> InGrid(found.value[i])
    ensures found.Some? && InGrid(start) ==> forall i :: 0 <= i < |found.value| ==> InGrid(found.value[i])
    ensures found.Some? && InGrid(start) && InGrid(end) ==> |found.value| == Heuristic(start, end) + 1
    ensures found.Some? && start == end ==> found.value == [start]
    ensures found.None? ==> Running(s', start, end) && MeasureFalls(s, s')
  {
    var sorted := SortOpen(s.open, s.g, end);
    var current := sorted[0];
    if current == end {
      SortedFront(s.open, s.g, end);
      var path := Finish(s, start, end);
      return Some(path), s;
    }
    Iteration(s, start, end);
    s' := Expand(s.(open := sorted[1..]), current);
    found := None;
  }

  method FindPath(start: Cell, end: Cell) returns (r: Option<seq<Cell>>)
    ensures r.Some? ==> |r.value| > 0 && r.value[0] == start && r.value[|r.value| - 1] == end
    ensures r.Some? ==> IsWalk(r.value)
    ensures r.Some? ==> forall i :: 0 < i < |r.value| ==> InGrid(r.value[i])
    ensures r.Some? && InGrid(start) ==> forall i :: 0 <= i < |r.value| ==> InGrid(r.value[i])
    ensures InGrid(start) && InGrid(end) ==> r.Some? && |r.value| == Heuristic(start, end) + 1
    ensures start == end ==> r == Some([start])
  {
    var s := Init(start);
    InitInv(start, end);
    while |s.open| > 0
      invariant Running(s, start, end)
      decreases AllCells - s.g.Keys, GridSum(s.g), |s.open|
    {
      var found;
      found, s := Iterate(s, start, end);
      if found.Some? {
        return found;
      }
    }
    return None;
  }
}
