/** The agent's movement: on every interval tick it moves toward the first
    waypoint of its path, settling exactly onto it (and dropping it from the
    path) once both axes are within one step; after each move it picks up the
    items under it. Positions are exact reals here, not IEEE doubles. */
module Movement {
  import opened Grid
  import opened Pickup

  /** The distance moved along each axis per tick. */
  const SPEED: real := 0.15

  /** The agent's continuous position, in board units. */
  datatype Pos = Pos(x: real, y: real)

  /** The agent's observable state: position, remaining waypoints, items on the board. */
  datatype Sim = Sim(pos: Pos, path: seq<Cell>, items: seq<Cell>)

  /** The state the board starts in: the agent at the origin, no path, three items. */
  const Initial: Sim := Sim(Pos(0.0, 0.0), [], [Cell(4, 2), Cell(7, 6), Cell(10, 3)])

  function CellPos(c: Cell): Pos {
    Pos(c.x as real, c.y as real)
  }

  /** The cell under the agent: both coordinates rounded down. */
  function FloorCell(p: Pos): Cell {
    Cell(p.x.Floor, p.y.Floor)
  }

  function AbsR(r: real): real {
    if r < 0.0 then -r else r
  }

  /** `Math.sign` on a real. */
  function Sign(r: real): real {
    if r > 0.0 then 1.0 else if r < 0.0 then -1.0 else 0.0
  }

  /** Both axes are strictly within one step of the waypoint. */
  predicate Settles(p: Pos, next: Cell) {
    AbsR(next.x as real - p.x) < SPEED && AbsR(next.y as real - p.y) < SPEED
  }

  /** One step of SPEED toward `next` on each axis independently. */
  function Advance(p: Pos, next: Cell): Pos {
    Pos(p.x + Sign(next.x as real - p.x) * SPEED, p.y + Sign(next.y as real - p.y) * SPEED)
  }

  /** The part of one axis's gap that still needs whole steps: the gap itself
      while it is at least one step wide, and 0 once it is narrower. */
  function AxisExcess(d: real): real {
    if AbsR(d) >= SPEED then AbsR(d) else 0.0
  }

  /** The distance still to cover before the agent settles on `next`. */
  function Excess(p: Pos, next: Cell): real {
    AxisExcess(next.x as real - p.x) + AxisExcess(next.y as real - p.y)
  }

  /** One step on one axis: a gap of at least one step shrinks by exactly one
      step, and a narrower gap stays narrower than one step. */
  lemma AxisStep(d: real)
    ensures AbsR(d) >= SPEED ==> AbsR(d - Sign(d) * SPEED) == AbsR(d) - SPEED
    ensures AbsR(d) >= SPEED ==> AxisExcess(d - Sign(d) * SPEED) <= AxisExcess(d) - SPEED
    ensures AbsR(d) < SPEED ==> AbsR(d - Sign(d) * SPEED) < SPEED
  {
  }

  /** A step that does not settle brings the agent at least one step closer. */
  lemma AdvanceProgress(p: Pos, next: Cell)
    requires !Settles(p, next)
    ensures Excess(Advance(p, next), next) <= Excess(p, next) - SPEED
  {
    var q := Advance(p, next);
    assert next.x as real - q.x == (next.x as real - p.x) - Sign(next.x as real - p.x) * SPEED;
    assert next.y as real - q.y == (next.y as real - p.y) - Sign(next.y as real - p.y) * SPEED;
    AxisStep(next.x as real - p.x);
    AxisStep(next.y as real - p.y);
  }

  /** One interval callback. */
  function Tick(s: Sim): (r: Sim)
    ensures r.items == s.items
    ensures |s.path| == 0 ==> r == s
    ensures |s.path| > 0 && Settles(s.pos, s.path[0]) ==>
              r.pos == CellPos(s.path[0]) && r.path == s.path[1..]
    ensures |s.path| > 0 && !Settles(s.pos, s.path[0]) ==>
              r.path == s.path && Excess(r.pos, s.path[0]) <= Excess(s.pos, s.path[0]) - SPEED
  {
    if |s.path| == 0 then s
    else
      var next := s.path[0];
      if Settles(s.pos, next) then Sim(CellPos(next), s.path[1..], s.items)
      else
        AdvanceProgress(s.pos, next);
        Sim(Advance(s.pos, next), s.path, s.items)
  }

  /** One tick followed by the pickup the position change triggers. With no
      path there is no interval and nothing happens. */
  function Frame(s: Sim): (r: Sim)
    ensures |s.path| == 0 ==> r == s
    ensures r.pos == Tick(s).pos && r.path == Tick(s).path
    ensures multiset(r.items) <= multiset(s.items)
  {
    if |s.path| == 0 then s
    else
      var t := Tick(s);
      Sim(t.pos, t.path, Collect(t.items, FloorCell(t.pos)))
  }

  /** After a frame with a path, exactly the items away from the agent's new
      cell remain. */
  lemma FrameCollects(s: Sim, c: Cell)
    requires |s.path| > 0
    ensures c in Frame(s).items <==> c in s.items && c != FloorCell(Frame(s).pos)
    ensures FloorCell(Frame(s).pos) !in Frame(s).items
  {
  }

  /** `k` applications of `step`, starting from `s`. */
  function Repeat(step: Sim -> Sim, s: Sim, k: nat): Sim
    decreases k
  {
    if k == 0 then s else Repeat(step, step(s), k - 1)
  }

  /** `k` frames in a row. */
  function Run(s: Sim, k: nat): Sim {
    Repeat(Frame, s, k)
  }

  lemma {:induction false} RepeatAdditive(step: Sim -> Sim, s: Sim, i: nat, j: nat)
    ensures Repeat(step, s, i + j) == Repeat(step, Repeat(step, s, i), j)
    decreases i
  {
    if i > 0 {
      RepeatAdditive(step, step(s), i - 1, j);
    }
  }

  /** Running i frames and then j more is running i + j frames. */
  lemma RunAdditive(s: Sim, i: nat, j: nat)
    ensures Run(s, i + j) == Run(Run(s, i), j)
  {
    RepeatAdditive(Frame, s, i, j);
  }

  lemma RunUnfold(s: Sim, k: nat)
    requires k > 0
    ensures Run(s, k) == Run(Frame(s), k - 1)
  {
  }

  /** Items are only ever removed: none is re-added, however long the agent moves. */
  lemma RunNeverAddsItems(s: Sim, k: nat)
    ensures multiset(Run(s, k).items) <= multiset(s.items)
  {
    forall x: Sim
      ensures multiset(Frame(x).items) <= multiset(x.items)
    {
    }
    RepeatNeverAdds(Frame, s, k);
  }

  /** Repeating a step that never adds items never adds items. */
  lemma {:induction false} RepeatNeverAdds(step: Sim -> Sim, s: Sim, k: nat)
    requires forall x :: multiset(step(x).items) <= multiset(x.items)
    ensures multiset(Repeat(step, s, k).items) <= multiset(s.items)
    decreases k
  {
    if k > 0 {
      var t := step(s);
      RepeatNeverAdds(step, t, k - 1);
      SubMultisetTransitive(multiset(Repeat(step, t, k - 1).items), multiset(t.items), multiset(s.items));
    }
  }

  lemma SubMultisetTransitive(a: multiset<Cell>, b: multiset<Cell>, c: multiset<Cell>)
    requires a <= b && b <= c
    ensures a <= c
  {
  }

  lemma AbsentFromSubMultiset(xs: seq<Cell>, ys: seq<Cell>, c: Cell)
    requires multiset(xs) <= multiset(ys) && c !in ys
    ensures c !in xs
  {
    assert multiset(xs)[c] <= multiset(ys)[c];
  }

  /** An item that is not on the board never reappears on it. */
  lemma CollectedStaysCollected(s: Sim, k: nat, c: Cell)
    requires c !in s.items
    ensures c !in Run(s, k).items
  {
    RunNeverAddsItems(s, k);
    AbsentFromSubMultiset(Run(s, k).items, s.items, c);
  }

  /** The cell under a board corner is the cell itself. */
  lemma FloorCellPos(c: Cell)
    ensures FloorCell(CellPos(c)) == c
  {
  }

  /** After `k` frames from `s` the agent stands exactly on `w`, its path is
      `rest`, and no item is left on `w`. */
  predicate SettledOn(s: Sim, k: nat, w: Cell, rest: seq<Cell>) {
    Run(s, k).pos == CellPos(w) && Run(s, k).path == rest && w !in Run(s, k).items
  }

  /** Once the remaining distance is under n + 1 steps, the agent settles
      exactly on its next waypoint, consumes it and picks up the items there,
      within n + 1 frames. */
  lemma {:induction false} ReachesWaypoint(s: Sim, n: nat)
    requires |s.path| > 0 && Excess(s.pos, s.path[0]) < (n + 1) as real * SPEED
    ensures exists k :: 0 < k <= n + 1 && SettledOn(s, k, s.path[0], s.path[1..])
    decreases n
  {
    var w := s.path[0];
    if Settles(s.pos, w) {
      RunUnfold(s, 1);
      assert Run(Frame(s), 0) == Frame(s);
      FloorCellPos(w);
      FrameCollects(s, w);
      assert SettledOn(s, 1, w, s.path[1..]);
    } else {
      var t := Frame(s);
      assert t.path == s.path;
      ReachesWaypoint(t, n - 1);
      var k :| 0 < k <= n && SettledOn(t, k, w, t.path[1..]);
      RunUnfold(s, k + 1);
      assert SettledOn(s, k + 1, w, s.path[1..]);
    }
  }

  /** Enough whole steps to cover a remaining distance `e`. */
  function StepsFor(e: real): (n: nat)
    requires e >= 0.0
    ensures e < (n + 1) as real * SPEED
  {
    (e / SPEED).Floor
  }

  /** From any position the agent eventually settles on its next waypoint and
      clears the items on it. */
  lemma ReachesNextWaypoint(s: Sim)
    requires |s.path| > 0
    ensures exists k :: 0 < k && SettledOn(s, k, s.path[0], s.path[1..])
  {
    ReachesWaypoint(s, StepsFor(Excess(s.pos, s.path[0])));
  }

  /** After `k` frames from `s` the path is used up, the agent stands exactly
      on its last waypoint, and no item is left on any waypoint. */
  predicate Traversed(s: Sim, k: nat) {
    && Run(s, k).path == []
    && (|s.path| > 0 ==> Run(s, k).pos == CellPos(s.path[|s.path| - 1]))
    && (forall c :: c in s.path ==> c !in Run(s, k).items)
  }

  /** Settling on the first waypoint and then walking the rest walks the whole path. */
  lemma TraversedAfterSettling(s: Sim, k1: nat, k2: nat)
    requires |s.path| > 0 && SettledOn(s, k1, s.path[0], s.path[1..])
    requires Traversed(Run(s, k1), k2)
    ensures Traversed(s, k1 + k2)
  {
    var t := Run(s, k1);
    var u := Run(t, k2);
    RunAdditive(s, k1, k2);
    CollectedStaysCollected(t, k2, s.path[0]);
    if |t.path| == 0 {
      RunStill(t, k2);
    }
    WalkedRoute(s.path, t, u);
  }

  /** The end state `u` of walking the rest of a route from `t`, where `t`
      stands on the route's first cell, also ends the whole route. */
  lemma WalkedRoute(route: seq<Cell>, t: Sim, u: Sim)
    requires |route| > 0 && t.pos == CellPos(route[0]) && t.path == route[1..]
    requires route[0] !in u.items && u.path == []
    requires |t.path| > 0 ==> u.pos == CellPos(t.path[|t.path| - 1])
    requires |t.path| == 0 ==> u == t
    requires forall c :: c in t.path ==> c !in u.items
    ensures u.pos == CellPos(route[|route| - 1])
    ensures forall c :: c in route ==> c !in u.items
  {
    assert route == [route[0]] + t.path;
  }

  /** From any position the agent eventually walks its whole path, standing
      exactly on the last waypoint, having collected every item on the route. */
  lemma {:induction false} TraversesPath(s: Sim)
    ensures exists k: nat :: Traversed(s, k)
    decreases |s.path|
  {
    if |s.path| == 0 {
      assert Run(s, 0) == s;
      assert Traversed(s, 0);
    } else {
      ReachesNextWaypoint(s);
      var k1 :| 0 < k1 && SettledOn(s, k1, s.path[0], s.path[1..]);
      TraversesPath(Run(s, k1));
      var k2: nat :| Traversed(Run(s, k1), k2);
      TraversedAfterSettling(s, k1, k2);
    }
  }

  /** With no path, frames change nothing. */
  lemma {:induction false} RunStill(s: Sim, k: nat)
    requires |s.path| == 0
    ensures Run(s, k) == s
    decreases k
  {
    if k > 0 {
      RunUnfold(s, k);
      RunStill(Frame(s), k - 1);
    }
  }

  /** One frame that does not settle: the agent advances one step on each
      axis toward the waypoint and keeps its path. */
  lemma StepFrame(s: Sim, k: nat)
    requires k > 0 && |s.path| > 0 && !Settles(s.pos, s.path[0])
    ensures Frame(s).pos == Advance(s.pos, s.path[0]) && Frame(s).path == s.path
    ensures Run(s, k) == Run(Frame(s), k - 1)
  {
    RunUnfold(s, k);
  }

  /** From the origin toward (1, 0), four frames reach (0.6, 0). */
  lemma WalkOutPart(s: Sim)
    requires s.pos == Pos(0.0, 0.0) && s.path == [Cell(1, 0)]
    ensures Run(s, 4).pos == Pos(0.6, 0.0) && Run(s, 4).path == [Cell(1, 0)]
  {
    StepFrame(s, 4);
    var s1 := Frame(s);
    StepFrame(s1, 3);
    var s2 := Frame(s1);
    StepFrame(s2, 2);
    var s3 := Frame(s2);
    StepFrame(s3, 1);
    var s4 := Frame(s3);
    assert s4.pos == Pos(0.6, 0.0);
    assert Run(s4, 0) == s4;
  }

  /** From (0.6, 0) toward (1, 0), two steps reach (0.9, 0) and the third
      frame settles on (1, 0). */
  lemma WalkOutSettle(s: Sim)
    requires s.pos == Pos(0.6, 0.0) && s.path == [Cell(1, 0)]
    ensures Run(s, 3).pos == Pos(1.0, 0.0) && Run(s, 3).path == []
  {
    StepFrame(s, 3);
    var s1 := Frame(s);
    StepFrame(s1, 2);
    var s2 := Frame(s1);
    assert s2.pos == Pos(0.9, 0.0);
    RunUnfold(s2, 1);
    var s3 := Frame(s2);
    assert s3.pos == Pos(1.0, 0.0) && s3.path == [];
    assert Run(s3, 0) == s3;
  }

  /** From the origin with the single waypoint (1, 0), seven frames bring the
      agent exactly onto (1, 0) and use up the path. */
  lemma WalkToOneZero(s: Sim)
    requires s.pos == Pos(0.0, 0.0) && s.path == [Cell(1, 0)]
    ensures Run(s, 7).pos == Pos(1.0, 0.0) && Run(s, 7).path == []
  {
    WalkOutPart(s);
    WalkOutSettle(Run(s, 4));
    RunAdditive(s, 4, 3);
  }

  /** From (1, 0) heading back to (0, 0), four frames leave the agent at (0.4, 0). */
  lemma WalkBackPart(s: Sim)
    requires s.pos == Pos(1.0, 0.0) && s.path == [Cell(0, 0)]
    ensures Run(s, 4).pos == Pos(0.4, 0.0)
  {
    StepFrame(s, 4);
    var s1 := Frame(s);
    StepFrame(s1, 3);
    var s2 := Frame(s1);
    StepFrame(s2, 2);
    var s3 := Frame(s2);
    StepFrame(s3, 1);
    var s4 := Frame(s3);
    assert s4.pos == Pos(0.4, 0.0);
    assert Run(s4, 0) == s4;
  }

  /** From (0.4, 0) along the waypoints (0, 1), (0, 2): the x gap drops below a
      step while the y gap does not, so x keeps stepping and passes 0. */
  lemma Overshoot(s: Sim)
    requires s.pos == Pos(0.4, 0.0) && s.path == [Cell(0, 1), Cell(0, 2)]
    ensures Run(s, 3).pos == Pos(-0.05, 0.45)
  {
    StepFrame(s, 3);
    var s1 := Frame(s);
    assert s1.pos == Pos(0.25, 0.15);
    StepFrame(s1, 2);
    var s2 := Frame(s1);
    assert s2.pos == Pos(0.1, 0.3);
    StepFrame(s2, 1);
    var s3 := Frame(s2);
    assert s3.pos == Pos(-0.05, 0.45);
    assert Run(s3, 0) == s3;
  }
}
