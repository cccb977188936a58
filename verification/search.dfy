/** The A* search state of `findPath` and the transitions of its main loop:
    the per-neighbour relaxation, the four-neighbour expansion, and the
    invariant they keep. */
module Search {
  import opened Grid
  import opened OpenList
  import opened CostSum

  /** The search's three local collections: the open list, the cost-so-far
      map `g` and the predecessor map `cameFrom`, each keyed by cell. */
  datatype SearchState = SearchState(open: seq<Cell>, g: map<Cell, nat>, cameFrom: map<Cell, Cell>)

  /** The state before the first iteration: `start` alone on the open list at cost 0. */
  function Init(start: Cell): SearchState {
    SearchState([start], map[start := 0], map[])
  }

  /* ---------- relaxation ---------- */

  /** `c` received a cost entry, or a strictly smaller one, between `s` and `r`. */
  predicate Improved(s: SearchState, r: SearchState, c: Cell) {
    c in r.g && (c !in s.g || r.g[c] < s.g[c])
  }

  /** Costs only fall, and the cost of `current` stays put. */
  ghost predicate CostsFall(s: SearchState, r: SearchState, current: Cell) {
    && current in s.g && current in r.g && r.g[current] == s.g[current]
    && (forall c :: c in s.g ==> c in r.g && r.g[c] <= s.g[c])
  }

  /** Every cell whose cost is written is an in-board neighbour of `current`,
      now at cost g(current) + 1, with `current` as predecessor and a new
      entry appended to the open list. */
  ghost predicate WritesAround(s: SearchState, r: SearchState, current: Cell)
    requires current in s.g
  {
    forall c :: Improved(s, r, c) ==>
      && InGrid(c) && Adjacent(current, c) && r.g[c] == s.g[current] + 1
      && c in r.cameFrom && r.cameFrom[c] == current
      && |s.open| <= |r.open| && c in r.open[|s.open|..]
  }

  /** Predecessors change only where a cost was written. */
  ghost predicate PredecessorsKept(s: SearchState, r: SearchState) {
    && (forall c :: c in r.cameFrom && !Improved(s, r, c) ==> c in s.cameFrom && r.cameFrom[c] == s.cameFrom[c])
    && (forall c :: c in s.cameFrom && !Improved(s, r, c) ==> c in r.cameFrom && r.cameFrom[c] == s.cameFrom[c])
  }

  /** The open list only grows at its end, and only by cells whose cost was written. */
  ghost predicate OpenExtended(s: SearchState, r: SearchState) {
    && |s.open| <= |r.open| && r.open[..|s.open|] == s.open
    && (forall j :: |s.open| <= j < |r.open| ==> Improved(s, r, r.open[j]))
  }

  /** When no new cell gets a cost, the cost sum does not rise, and it falls
      if anything was pushed. */
  ghost predicate SumFalls(s: SearchState, r: SearchState) {
    && (r.g.Keys == s.g.Keys ==> GridSum(r.g) <= GridSum(s.g))
    && (r.g.Keys == s.g.Keys && |s.open| < |r.open| ==> GridSum(r.g) < GridSum(s.g))
  }

  /** What relaxing neighbours of `current` may do to a search state. */
  ghost predicate RelaxedAround(s: SearchState, r: SearchState, current: Cell)
    requires current in s.g
  {
    && CostsFall(s, r, current)
    && WritesAround(s, r, current)
    && PredecessorsKept(s, r)
    && OpenExtended(s, r)
    && SumFalls(s, r)
  }

  lemma RelaxedReflexive(s: SearchState, current: Cell)
    requires current in s.g
    ensures RelaxedAround(s, s, current)
  {
  }

  lemma OpenExtendedTransitive(s: SearchState, t: SearchState, r: SearchState)
    requires OpenExtended(s, t) && OpenExtended(t, r)
    requires forall c :: c in s.g ==> c in t.g && t.g[c] <= s.g[c]
    requires forall c :: c in t.g ==> c in r.g && r.g[c] <= t.g[c]
    ensures OpenExtended(s, r)
  {
    assert r.open[..|s.open|] == s.open by {
      assert r.open[..|s.open|] == r.open[..|t.open|][..|s.open|];
    }
    forall j | |s.open| <= j < |r.open|
      ensures Improved(s, r, r.open[j])
    {
      if j < |t.open| {
        assert r.open[j] == t.open[j];
        assert Improved(s, t, t.open[j]);
      } else {
        assert Improved(t, r, r.open[j]);
      }
    }
  }

  lemma WritesAroundTransitive(s: SearchState, t: SearchState, r: SearchState, current: Cell)
    requires CostsFall(s, t, current) && CostsFall(t, r, current)
    requires WritesAround(s, t, current) && WritesAround(t, r, current)
    requires PredecessorsKept(t, r) && OpenExtended(s, t) && OpenExtended(t, r)
    ensures WritesAround(s, r, current)
  {
    forall c | Improved(s, r, c)
      ensures InGrid(c) && Adjacent(current, c) && r.g[c] == s.g[current] + 1
      ensures c in r.cameFrom && r.cameFrom[c] == current
      ensures |s.open| <= |r.open| && c in r.open[|s.open|..]
    {
      if !Improved(t, r, c) {
        assert Improved(s, t, c);
      }
      AppendedStaysAppended(s.open, t.open, r.open, c);
    }
  }

  /** When `c` was appended to `a` to give `b`, or to `b` to give `d`, where
      `d` extends `b` and `b` extends `a`, then `c` was appended to `a` to give `d`. */
  lemma AppendedStaysAppended(a: seq<Cell>, b: seq<Cell>, d: seq<Cell>, c: Cell)
    requires |a| <= |b| <= |d| && d[..|b|] == b
    requires c in b[|a|..] || c in d[|b|..]
    ensures c in d[|a|..]
  {
    if c in b[|a|..] {
      var m :| 0 <= m < |b| - |a| && b[|a|..][m] == c;
      assert d[|a|..][m] == b[|a| + m];
    } else {
      var m :| 0 <= m < |d| - |b| && d[|b|..][m] == c;
      assert d[|a|..][|b| - |a| + m] == c;
    }
  }

  lemma SumFallsTransitive(s: SearchState, t: SearchState, r: SearchState, current: Cell)
    requires CostsFall(s, t, current) && CostsFall(t, r, current)
    requires SumFalls(s, t) && SumFalls(t, r)
    requires |s.open| <= |t.open| <= |r.open|
    ensures SumFalls(s, r)
  {
    if r.g.Keys == s.g.Keys {
      assert t.g.Keys <= r.g.Keys;
      assert s.g.Keys <= t.g.Keys;
      assert t.g.Keys == s.g.Keys;
    }
  }

  lemma RelaxedTransitive(s: SearchState, t: SearchState, r: SearchState, current: Cell)
    requires current in s.g && RelaxedAround(s, t, current) && RelaxedAround(t, r, current)
    ensures RelaxedAround(s, r, current)
  {
    assert CostsFall(s, r, current);
    WritesAroundTransitive(s, t, r, current);
    assert PredecessorsKept(s, r) by {
      assert forall c :: Improved(s, r, c) <== Improved(s, t, c) || Improved(t, r, c);
    }
    OpenExtendedTransitive(s, t, r);
    SumFallsTransitive(s, t, r, current);
  }

  /** One pass of the neighbour loop: try to reach neighbour `i` of `current`
      through `current`. An off-board neighbour is skipped; otherwise its cost,
      predecessor and a new open-list entry are written when it has no cost
      yet or the new cost is strictly smaller. */
  function Relax(s: SearchState, current: Cell, i: int): (r: SearchState)
    requires current in s.g && 0 <= i < 4
    ensures RelaxedAround(s, r, current)
    ensures InGrid(Neighbour(current, i)) ==>
              Neighbour(current, i) in r.g && r.g[Neighbour(current, i)] <= s.g[current] + 1
    ensures !InGrid(Neighbour(current, i)) ==> r == s
    ensures forall c :: Improved(s, r, c) ==> c == Neighbour(current, i)
    ensures r.open == if Improved(s, r, Neighbour(current, i)) then s.open + [Neighbour(current, i)] else s.open
  {
    var n := Neighbour(current, i);
    if !InGrid(n) then
      RelaxedReflexive(s, current);
      s
    else
      var newG := s.g[current] + 1;
      if n !in s.g || newG < s.g[n] then
        WriteIsRelaxed(s, current, n);
        Write(s, current, n)
      else
        RelaxedReflexive(s, current);
        s
  }

  /** The three writes of a successful relaxation of `n` through `current`. */
  function Write(s: SearchState, current: Cell, n: Cell): SearchState
    requires current in s.g
  {
    SearchState(s.open + [n], s.g[n := s.g[current] + 1], s.cameFrom[n := current])
  }

  lemma WriteIsRelaxed(s: SearchState, current: Cell, n: Cell)
    requires current in s.g && InGrid(n) && Adjacent(current, n)
    requires n !in s.g || s.g[current] + 1 < s.g[n]
    ensures RelaxedAround(s, Write(s, current, n), current)
  {
    var r := Write(s, current, n);
    assert forall c :: Improved(s, r, c) ==> c == n;
    WriteSumFalls(s, current, n);
  }

  lemma WriteSumFalls(s: SearchState, current: Cell, n: Cell)
    requires current in s.g && InGrid(n)
    requires n !in s.g || s.g[current] + 1 < s.g[n]
    ensures SumFalls(s, Write(s, current, n))
  {
    var r := Write(s, current, n);
    if n in s.g {
      assert r.g.Keys == s.g.Keys;
      assert BelowOnBoard(r.g, s.g);
      GridSumDecreases(r.g, s.g, n);
    } else {
      assert n in r.g.Keys - s.g.Keys;
    }
  }

  /** The neighbour loop from direction `i` on. */
  function ExpandFrom(s: SearchState, current: Cell, i: int): (r: SearchState)
    requires current in s.g && 0 <= i <= 4
    ensures RelaxedAround(s, r, current)
    ensures forall d :: i <= d < 4 && InGrid(Neighbour(current, d)) ==>
              Neighbour(current, d) in r.g && r.g[Neighbour(current, d)] <= s.g[current] + 1
    decreases 4 - i
  {
    if i == 4 then
      RelaxedReflexive(s, current);
      s
    else
      var t := Relax(s, current, i);
      var r := ExpandFrom(t, current, i + 1);
      RelaxedTransitive(s, t, r, current);
      ExpandStep(s, t, r, current, i);
      r
  }

  lemma ExpandStep(s: SearchState, t: SearchState, r: SearchState, current: Cell, i: int)
    requires 0 <= i < 4 && CostsFall(s, t, current) && CostsFall(t, r, current)
    requires InGrid(Neighbour(current, i)) ==>
               Neighbour(current, i) in t.g && t.g[Neighbour(current, i)] <= s.g[current] + 1
    requires forall d :: i + 1 <= d < 4 && InGrid(Neighbour(current, d)) ==>
               Neighbour(current, d) in r.g && r.g[Neighbour(current, d)] <= t.g[current] + 1
    ensures forall d :: i <= d < 4 && InGrid(Neighbour(current, d)) ==>
              Neighbour(current, d) in r.g && r.g[Neighbour(current, d)] <= s.g[current] + 1
  {
  }

  /** The neighbours of `c` in directions `i` to 3, in loop order. */
  function NeighboursFrom(c: Cell, i: int): (r: seq<Cell>)
    requires 0 <= i <= 4
    ensures |r| == 4 - i && forall k :: 0 <= k < |r| ==> r[k] == Neighbour(c, i + k)
    decreases 4 - i
  {
    if i == 4 then [] else [Neighbour(c, i)] + NeighboursFrom(c, i + 1)
  }

  /** The loop from direction `i` on writes only the neighbours in directions
      `i` to 3, and appends at most one open-list entry per direction. */
  lemma {:induction false} ExpandFromTouches(s: SearchState, current: Cell, i: int)
    requires current in s.g && 0 <= i <= 4
    ensures forall c :: Improved(s, ExpandFrom(s, current, i), c) ==> c in NeighboursFrom(current, i)
    ensures |ExpandFrom(s, current, i).open| <= |s.open| + (4 - i)
    decreases 4 - i
  {
    if i < 4 {
      var t := Relax(s, current, i);
      ExpandFromTouches(t, current, i + 1);
      ExpandStepTouches(s, t, ExpandFrom(t, current, i + 1), current, i);
    }
  }

  /** The relaxation of direction `i` followed by the loop from `i + 1` writes
      only neighbours in directions `i` to 3. */
  lemma ExpandStepTouches(s: SearchState, t: SearchState, r: SearchState, current: Cell, i: int)
    requires 0 <= i < 4
    requires forall c :: c in s.g ==> c in t.g && t.g[c] <= s.g[c]
    requires forall c :: Improved(s, t, c) ==> c == Neighbour(current, i)
    requires forall c :: Improved(t, r, c) ==> c in NeighboursFrom(current, i + 1)
    ensures forall c :: Improved(s, r, c) ==> c in NeighboursFrom(current, i)
  {
    assert NeighboursFrom(current, i) == [Neighbour(current, i)] + NeighboursFrom(current, i + 1);
    forall c | Improved(s, r, c)
      ensures c in NeighboursFrom(current, i)
    {
      if !Improved(s, t, c) {
        assert Improved(t, r, c);
      }
    }
  }

  /** Every in-board neighbour of `c` has a cost at most one more than `c`'s. */
  predicate Expanded(g: map<Cell, nat>, c: Cell)
    requires c in g
  {
    forall i :: 0 <= i < 4 && InGrid(Neighbour(c, i)) ==>
      Neighbour(c, i) in g && g[Neighbour(c, i)] <= g[c] + 1
  }

  /** The whole neighbour loop over the four directions. */
  function Expand(s: SearchState, current: Cell): (r: SearchState)
    requires current in s.g
    ensures RelaxedAround(s, r, current)
    ensures Expanded(r.g, current)
  {
    ExpandFrom(s, current, 0)
  }

  /* ---------- the loop invariant ---------- */

  /** `start` costs 0 and has no predecessor. */
  predicate StartRooted(s: SearchState, start: Cell) {
    start in s.g && s.g[start] == 0 && start !in s.cameFrom
  }

  /** Every cell with a cost is `start` or on the board: off-board neighbours are skipped. */
  predicate OnBoard(s: SearchState, start: Cell) {
    forall c :: c in s.g ==> c == start || InGrid(c)
  }

  /** Every open cell has a cost, so the comparator's lookups are defined. */
  predicate OpenKeyed(s: SearchState) {
    forall c :: c in s.open ==> c in s.g
  }

  /** Every cell other than `start` with a cost has a predecessor; each
      predecessor is a 4-adjacent cell with a cost, and a strictly smaller one. */
  predicate PredecessorsValid(s: SearchState, start: Cell) {
    && (forall c :: c in s.g && c != start ==> c in s.cameFrom)
    && (forall c :: c in s.cameFrom ==>
          && c in s.g && s.cameFrom[c] in s.g
          && Adjacent(s.cameFrom[c], c) && s.g[s.cameFrom[c]] < s.g[c])
  }

  /** No cost is below the Manhattan distance from `start`. */
  predicate CostsAdmissible(s: SearchState, start: Cell) {
    forall c :: c in s.g ==> Heuristic(start, c) <= s.g[c]
  }

  /** A cell with a cost that is not on the open list has been expanded at
      that cost, so its neighbours are relaxed around it. */
  predicate ClosedExpanded(s: SearchState) {
    forall c :: c in s.g && c !in s.open ==> Expanded(s.g, c)
  }

  /** `end` is never expanded: once it has a cost it stays on the open list. */
  predicate EndOpen(s: SearchState, end: Cell) {
    end in s.g ==> end in s.open
  }

  /** What holds of the search state at the top of every iteration. */
  predicate Inv(s: SearchState, start: Cell, end: Cell) {
    && StartRooted(s, start)
    && OnBoard(s, start)
    && OpenKeyed(s)
    && PredecessorsValid(s, start)
    && CostsAdmissible(s, start)
    && ClosedExpanded(s)
    && EndOpen(s, end)
  }

  /** A cell with a predecessor is not `start`, so it is on the board. */
  lemma PredecessorKeyOnBoard(s: SearchState, start: Cell, c: Cell)
    requires StartRooted(s, start) && OnBoard(s, start) && PredecessorsValid(s, start)
    requires c in s.cameFrom
    ensures InGrid(c)
  {
  }

  lemma InitInv(start: Cell, end: Cell)
    ensures Inv(Init(start), start, end)
  {
  }

  /** The facts one non-final iteration provides: `current` was taken off
      the open list (leaving `rest`), is not `end`, and `r` is the state after
      relaxing all four neighbours of `current`. */
  ghost predicate StepFacts(s: SearchState, current: Cell, rest: seq<Cell>, r: SearchState, end: Cell) {
    && current in s.g && current != end
    && multiset(s.open) == multiset{current} + multiset(rest)
    && RelaxedAround(s.(open := rest), r, current)
    && Expanded(r.g, current)
  }

  lemma StepKeepsShape(s: SearchState, current: Cell, rest: seq<Cell>, r: SearchState, start: Cell, end: Cell)
    requires Inv(s, start, end) && StepFacts(s, current, rest, r, end)
    ensures StartRooted(r, start) && OnBoard(r, start) && CostsAdmissible(r, start)
  {
    var s1 := s.(open := rest);
    forall c | c in r.g
      ensures Heuristic(start, c) <= r.g[c]
    {
      if Improved(s1, r, c) {
        HeuristicTriangle(start, current, c);
      }
    }
  }

  lemma StepKeepsOpenKeyed(s: SearchState, current: Cell, rest: seq<Cell>, r: SearchState, start: Cell, end: Cell)
    requires Inv(s, start, end) && StepFacts(s, current, rest, r, end)
    ensures OpenKeyed(r)
  {
    var s1 := s.(open := rest);
    forall c | c in r.open
      ensures c in r.g
    {
      var j :| 0 <= j < |r.open| && r.open[j] == c;
      if j < |rest| {
        assert r.open[j] == rest[j];
        assert c in multiset(rest);
        assert c in multiset(s.open);
      } else {
        assert Improved(s1, r, r.open[j]);
      }
    }
  }

  lemma StepKeepsPredecessors(s: SearchState, current: Cell, rest: seq<Cell>, r: SearchState, start: Cell, end: Cell)
    requires Inv(s, start, end) && StepFacts(s, current, rest, r, end)
    ensures PredecessorsValid(r, start)
  {
    var s1 := s.(open := rest);
    forall c | c in r.cameFrom
      ensures c in r.g && r.cameFrom[c] in r.g
      ensures Adjacent(r.cameFrom[c], c) && r.g[r.cameFrom[c]] < r.g[c]
    {
      if !Improved(s1, r, c) {
        assert c in s.cameFrom;
      }
    }
  }

  lemma StepKeepsClosed(s: SearchState, current: Cell, rest: seq<Cell>, r: SearchState, start: Cell, end: Cell)
    requires Inv(s, start, end) && StepFacts(s, current, rest, r, end)
    ensures ClosedExpanded(r)
  {
    var s1 := s.(open := rest);
    forall c | c in r.g && c !in r.open && c != current
      ensures Expanded(r.g, c)
    {
      assert !Improved(s1, r, c);
      assert c in s.g && r.g[c] == s.g[c];
      assert c !in rest;
      assert c !in multiset(s.open);
      assert Expanded(s.g, c);
    }
  }

  lemma StepKeepsEndOpen(s: SearchState, current: Cell, rest: seq<Cell>, r: SearchState, start: Cell, end: Cell)
    requires Inv(s, start, end) && StepFacts(s, current, rest, r, end)
    ensures EndOpen(r, end)
  {
    var s1 := s.(open := rest);
    if end in r.g && !Improved(s1, r, end) {
      assert end in s.open;
      assert end in multiset(s.open);
      assert end in multiset(rest);
      var j :| 0 <= j < |rest| && rest[j] == end;
      assert r.open[j] == end;
    }
  }

  /** An iteration that does not find `end` keeps the invariant: sort the
      open list, take its front, relax around it. */
  lemma StepPreservesInv(s: SearchState, start: Cell, end: Cell)
    requires Inv(s, start, end) && |s.open| > 0
    requires SortOpen(s.open, s.g, end)[0] != end
    ensures var sorted := SortOpen(s.open, s.g, end);
            Inv(Expand(s.(open := sorted[1..]), sorted[0]), start, end)
  {
    var sorted := SortOpen(s.open, s.g, end);
    var current := sorted[0];
    var rest := sorted[1..];
    assert sorted == [current] + rest;
    assert current in s.g by {
      assert current in multiset(sorted);
    }
    var r := Expand(s.(open := rest), current);
    assert StepFacts(s, current, rest, r, end);
    StepKeepsShape(s, current, rest, r, start, end);
    StepKeepsOpenKeyed(s, current, rest, r, start, end);
    StepKeepsPredecessors(s, current, rest, r, start, end);
    StepKeepsClosed(s, current, rest, r, start, end);
    StepKeepsEndOpen(s, current, rest, r, start, end);
  }

  /** One shortest step back toward `start` from a board cell other than `start`. */
  function TowardStart(start: Cell, v: Cell): (u: Cell)
    requires v != start
    ensures Heuristic(start, u) + 1 == Heuristic(start, v)
    ensures exists i :: 0 <= i < 4 && Neighbour(u, i) == v
  {
    if v.x > start.x then
      assert Neighbour(Cell(v.x - 1, v.y), 0) == v;
      Cell(v.x - 1, v.y)
    else if v.x < start.x then
      assert Neighbour(Cell(v.x + 1, v.y), 1) == v;
      Cell(v.x + 1, v.y)
    else if v.y > start.y then
      assert Neighbour(Cell(v.x, v.y - 1), 2) == v;
      Cell(v.x, v.y - 1)
    else
      assert Neighbour(Cell(v.x, v.y + 1), 3) == v;
      Cell(v.x, v.y + 1)
  }

  /** The A* frontier property on the open board: if a board cell `v` has no
      cost yet or a cost above its true distance from `start`, then the open
      list holds a cell whose cost is its true distance and which lies on a
      shortest route from `start` to `v`. */
  lemma {:induction false} Frontier(s: SearchState, start: Cell, end: Cell, v: Cell)
    requires Inv(s, start, end) && InGrid(start) && InGrid(v)
    requires v !in s.g || s.g[v] > Heuristic(start, v)
    ensures exists p :: p in s.open && p in s.g && s.g[p] == Heuristic(start, p)
                        && Heuristic(start, p) + Heuristic(p, v) == Heuristic(start, v)
    decreases Heuristic(start, v)
  {
    var u := TowardStart(start, v);
    var i :| 0 <= i < 4 && Neighbour(u, i) == v;
    assert InGrid(u);
    if u !in s.g || s.g[u] > Heuristic(start, u) {
      Frontier(s, start, end, u);
      var p :| p in s.open && p in s.g && s.g[p] == Heuristic(start, p)
               && Heuristic(start, p) + Heuristic(p, u) == Heuristic(start, u);
      HeuristicTriangle(p, u, v);
      HeuristicTriangle(start, p, v);
    } else if u in s.open {
      assert Heuristic(u, v) == 1;
    } else {
      assert false;
    }
  }

  /** When `end` reaches the front of the sorted open list, its cost is the
      Manhattan distance from `start`: no open cell could have a smaller key. */
  lemma OptimalOnPop(s: SearchState, start: Cell, end: Cell)
    requires Inv(s, start, end) && InGrid(start) && InGrid(end)
    requires IsFront(s.open, s.g, end, end)
    ensures s.g[end] == Heuristic(start, end)
  {
    if s.g[end] > Heuristic(start, end) {
      Frontier(s, start, end, end);
      assert false;
    }
  }

  /** With both endpoints on the board the open list never runs dry: either
      `end` is still short of its distance and the frontier cell is open, or
      `end` has a cost and is itself open. */
  lemma OpenNonEmpty(s: SearchState, start: Cell, end: Cell)
    requires Inv(s, start, end) && InGrid(start) && InGrid(end)
    ensures |s.open| > 0
  {
    if end !in s.g || s.g[end] > Heuristic(start, end) {
      Frontier(s, start, end, end);
    }
  }
}
