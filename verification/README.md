# Pathfinder core in Dafny

This project models the engine of a small grid game, `src/App.tsx`. An agent sits on a 12-by-12 board, and a click on a cell sends it there along a shortest route. The route is found by A* with unit step cost and the Manhattan heuristic. A 16 ms interval then moves the agent toward the route's waypoints, 0.15 units per axis per tick. After every move, the items lying on the cell under the agent are removed.

The modules follow the program's structure:

- `Grid`: cells, the board bounds, `heuristic`, the four step directions, and walks (sequences of 4-adjacent cells).
- `OpenList`: the `open.sort(...)` call, modelled as a stable sort by cost-so-far plus heuristic, and the cell that `shift()` takes.
- `CostSum`: a sum of the costs over the board, used only to prove that the search terminates.
- `Search`: the search state (open list, `g`, `cameFrom`), the relaxation of one neighbour, the expansion of all four, and the loop invariant together with the A* optimality argument.
- `PathFinder`: `findPath` itself, including the route reconstruction.
- `Pickup`: the item filter.
- `Movement`: the interval tick, one frame (a tick followed by the pickup), and runs of many frames.
- `App`: `clickTile`.
- `Wrappers`: `Option`, where `None` stands for `undefined`.

Three behaviours of the code shape the model:

- `findPath` returns the route *including* `start`. It is `clickTile` that drops the first cell with `slice(1)`.
- `findPath` has no bounds check, so an off-board `start` is searched from like any other cell. The agent can in fact stand off the board: `App.SteerOffBoard` reaches such a position from the initial state with three clicks. Properties that need the whole route on the board are therefore conditioned on `InGrid(start)` and not required of callers. Every cell after `start` is on the board in any case, because only on-board neighbours ever get a cost.
- The code keeps no collected-item count, so the model has none. "Collected once" is stated as "never re-added" instead.

## Model

| member | source | states |
|---|---|---|
| `Grid.Heuristic` | src/App.tsx:10-13 | The Manhattan distance is a natural number, and it is zero exactly when the two cells are the same. |
| `Grid.HeuristicSymmetric` | src/App.tsx:10-13 | The heuristic does not depend on the order of its arguments. |
| `Grid.HeuristicTriangle` | src/App.tsx:10-13 | The heuristic obeys the triangle inequality, which makes it consistent for unit steps. |
| `Grid.Neighbour` | src/App.tsx:41-50 | Each of the four direction offsets leads to a cell at heuristic distance exactly 1. |
| `Grid.AdjacentIsNeighbour` | src/App.tsx:41-50 | Two cells are at distance 1 exactly when one is reached from the other by one of the four offsets, so diagonal moves never occur. |
| `Grid.WalkAtLeastDistance` | src/App.tsx:10-13 | No walk of 4-adjacent cells is shorter than the heuristic between its endpoints, so the heuristic never overestimates. |
| `OpenList.Insert` | src/App.tsx:24-28 | One insertion step of the sort is a permutation: the result holds the old list plus the new cell, and every cell on it still has a cost. |
| `OpenList.InsertSorted` | src/App.tsx:24-28 | Inserting into a list sorted by g + h keeps it sorted. |
| `OpenList.InsertStable` | src/App.tsx:24-28 | Insertion puts the new cell ahead of every cell with the same key and leaves the other cells of that key in their order. |
| `OpenList.SortOpen` | src/App.tsx:24-28 | The sorted open list is a permutation of the old one, ordered by g + h, and cells of equal key keep their relative order. |
| `OpenList.SortedFront` | src/App.tsx:24-30 | The cell `shift()` takes after the sort is on the open list, and no open cell has a smaller key. |
| `CostSum.GridSumDecreases` | src/App.tsx:56-58 | Lowering one on-board cost without raising any other strictly lowers the board's cost sum. This sum is the second component of the termination measure. |
| `Search.Relax` | src/App.tsx:48-61 | An off-board neighbour leaves the state unchanged. An on-board neighbour ends with a cost of at most the current cell's cost + 1. Costs only fall. A cost is written only when it is new or strictly smaller, always for an adjacent on-board cell, at the current cost + 1, together with `current` as its predecessor. Only neighbour `i` of `current` can be written. The open list gains exactly that neighbour at its end when its cost is written, even if an older entry for it is still on the list, and stays as it was otherwise. Other predecessors and the existing open list are kept. |
| `Search.ExpandFrom` | src/App.tsx:48-62 | Running the direction loop from direction `i` relaxes every remaining on-board neighbour and keeps the relaxation guarantees: each cell whose cost is written has a new entry past the old end of the open list. Which cells it may write is stated by `Search.ExpandFromTouches`. |
| `Search.ExpandFromTouches` | src/App.tsx:41-62 | The direction loop from `i` on writes only the neighbours in directions `i` to 3, so directions before `i` are left alone, and it appends at most one open-list entry per remaining direction. |
| `Search.Expand` | src/App.tsx:41-62 | After the four-direction loop, every on-board neighbour of the expanded cell has a cost at most one above its own. Only adjacent on-board cells are written, each at that cost, with the expanded cell as predecessor and a new entry past the old end of the open list. |
| `Search.InitInv` | src/App.tsx:17-20 | The initial state (open = [start], g(start) = 0, empty `cameFrom`) satisfies the loop invariant. |
| `Search.StepPreservesInv` | src/App.tsx:22-62 | An iteration that does not reach `end` keeps the invariant. The invariant says: start costs 0 and has no predecessor; costed cells are on the board or are `start`; open cells have costs; every predecessor is adjacent and strictly cheaper; costs never undercut the heuristic; closed cells are expanded; and `end` stays open once costed. |
| `Search.Frontier` | src/App.tsx:22-62 | Suppose a board cell has no cost yet, or a cost above its true distance. Then some open cell already has its exact distance and lies on a shortest route to that cell. |
| `Search.OptimalOnPop` | src/App.tsx:24-31 | When `end` is at the front of the sorted open list, its cost equals its Manhattan distance from `start`. |
| `Search.OpenNonEmpty` | src/App.tsx:22 | With both endpoints on the board, the open list is never empty at the top of the loop. |
| `PathFinder.Reconstruct` | src/App.tsx:31-39 | Following `cameFrom` back from a costed cell and prepending each cell yields a walk from `start` to that cell. The walk has at most cost + 1 cells, every one of them is costed, and every cell after `start` is on the board. It needs only the facts about the predecessor map, not the whole loop invariant. |
| `PathFinder.InvLinks` | src/App.tsx:48-58 | Under the loop invariant, every costed cell without a predecessor is `start`, and every cell with a predecessor is on the board, costed, adjacent to its costed predecessor and strictly dearer than it. |
| `PathFinder.StepDecreases` | src/App.tsx:22-62 | Each non-final iteration lowers the lexicographic measure (uncosted board cells, board cost sum, open-list length). |
| `PathFinder.Iteration` | src/App.tsx:24-62 | A non-final iteration keeps the loop invariant and lowers the termination measure. |
| `PathFinder.Finish` | src/App.tsx:31-39 | The returned route runs from `start` to `end` in unit steps, and every cell after `start` is on the board. With both endpoints on the board, it has exactly heuristic + 1 cells. |
| `PathFinder.Iterate` | src/App.tsx:24-62 | One loop pass either returns a valid route ending at `end`, whose cells after `start` are on the board, or produces a state that keeps the invariant with a lower measure. |
| `PathFinder.FindPath` | src/App.tsx:15-64 | The search terminates. A returned route starts at `start`, ends at `end`, and moves in unit 4-adjacent steps; every cell after `start` is on the board, even when `start` is not. With both endpoints on the board a route is always found, and it is a shortest one (heuristic + 1 cells). If start equals end, the result is `[start]`. |
| `Pickup.Collect` | src/App.tsx:99-103 | A cell survives the filter exactly when it was an item and is not the agent's cell. Every copy at that cell is removed and the others are kept with their multiplicity. Survivors keep their order, and nothing is added. |
| `Pickup.CollectIdempotent` | src/App.tsx:99-103 | Filtering twice at the same cell is the same as filtering once. |
| `Movement.AxisStep` | src/App.tsx:83-91 | On one axis, a gap of at least one step shrinks by exactly one step, and a narrower gap stays narrower than a step. |
| `Movement.AdvanceProgress` | src/App.tsx:86-91 | A tick that does not settle lowers the remaining wide-axis distance by at least one step. |
| `Movement.Tick` | src/App.tsx:77-91 | With an empty path nothing changes. When both axes are within a step, the agent lands exactly on the waypoint and the path loses its first cell. Otherwise the path is unchanged and the agent gets one step closer. Items are untouched. |
| `Movement.Frame` | src/App.tsx:76-104 | A frame is a tick followed by the pickup. It never adds items, and with an empty path it does nothing. |
| `Movement.FrameCollects` | src/App.tsx:97-104 | After a moving frame, exactly the items away from the agent's new cell remain, and none lies under the agent. |
| `Movement.RunNeverAddsItems` | src/App.tsx:97-104 | Over any number of frames, the items only shrink, as a multiset. |
| `Movement.CollectedStaysCollected` | src/App.tsx:97-104 | A cell with no item never gets one back, however long the agent moves. |
| `Movement.ReachesWaypoint` | src/App.tsx:76-104 | If the remaining distance is under n + 1 steps, the agent settles exactly on its next waypoint within n + 1 frames, that waypoint is consumed, and no item is left on it. |
| `Movement.ReachesNextWaypoint` | src/App.tsx:76-104 | From any position, the agent eventually settles exactly on its next waypoint and clears the items on it. |
| `Movement.TraversesPath` | src/App.tsx:76-104 | From any position, the agent eventually empties its path, stands exactly on the last waypoint, and has collected every item on any of its waypoints. |
| `Movement.TraversedAfterSettling` | src/App.tsx:76-104 | Settling on the first waypoint (with its items cleared) and then walking the rest of the path walks the whole path: the cleared first cell stays cleared. |
| `Movement.WalkToOneZero` | src/App.tsx:77-91 | From the origin with the single waypoint (1, 0), seven frames put the agent exactly on (1, 0) with an empty path. |
| `Movement.WalkBackPart` | src/App.tsx:83-91 | From (1, 0) heading for (0, 0), four frames leave the agent at (0.4, 0). |
| `Movement.Overshoot` | src/App.tsx:83-91 | From (0.4, 0) along the waypoints (0, 1), (0, 2), the x axis keeps stepping while y has a full step left, so three frames leave the agent at (-0.05, 0.45). |
| `App.Redirect` | src/App.tsx:112 | `undefined` leaves the state unchanged. A found route, once its first cell is put back in front of the new path, is the route itself. Position and items are untouched. |
| `App.ClickTile` | src/App.tsx:106-113 | Position and items never change. The path either stays as it was or becomes a unit-step walk of on-board cells that starts next to the floored position and ends at the clicked cell. Clicking the agent's own cell empties the path. With both cells on the board, the new path has exactly heuristic-distance waypoints. |
| `App.StraightRoute` | src/App.tsx:106-113 | A two-waypoint route from a cell to the cell two rows below it is forced: it runs straight down through the cell in between. |
| `App.WalkOut` | src/App.tsx:67-113 | From the initial state, a click on (1, 0) and seven frames leave the agent exactly on (1, 0). |
| `App.WalkOutAndBack` | src/App.tsx:67-113 | Continuing, a click on (0, 0) and four frames leave the agent at (0.4, 0). |
| `App.SteerOffBoard` | src/App.tsx:67-113 | Continuing, a click on (0, 2) and three frames leave the agent at (-0.05, 0.45), over the off-board cell (-1, 0): an off-board `start` for `findPath` is reachable. |

## Left out

- Rendering (the board, tile size, sprites and styling) is left out. It only reads the state.
- The React scheduling is left out: `setInterval`, effect re-subscription, and batched state updates. A frame is modelled as one tick followed by one run of the pickup effect. The settle branch's `slice(1)` is applied to the same path the tick read its waypoint from.
- Floating point is left out. Positions are exact reals, not IEEE doubles, so the convergence lemmas (`Movement.ReachesWaypoint`, `Movement.TraversesPath`) hold for the idealised arithmetic only.
- The `target` state is left out. It is written by `clickTile` but never read.
- The mapping from a click to a cell is left out. `App.ClickTile` takes the clicked cell directly.
- Map keys are left out. The program uses string keys of the form `x, y`; the model uses cells as keys, which is the same mapping because the format is injective on integers.
- PathFinder.FindPath: determinism is left out. The model is deterministic, but the result is not stated as a function of its inputs, because it is a method.
- There is no collected-item counter, because the code keeps none.
