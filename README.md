# Maze generator and breadth-first solver

The repository has two copies of one small engine on a `rows x cols` character grid:
- `maze.js` is the browser page.
- `PyBFS.py` is the desktop version.

Each copy has two parts.

- **The generator** is a randomised Prim (growing-tree) generator.
  - It fills the grid with walls `#` and carves `(1,1)`.
  - It keeps a frontier list of wall cells two steps away from carved cells, each marked `F`.
  - It repeatedly takes a random frontier cell and joins it to a random carved cell `P` two steps away, carving the cell between them.
  - When the frontier is empty it stamps `S` on the start `(1,1)` and `E` on the end `(rows-2, cols-2)`.
- **The solver** is a breadth-first search.
  - It clears earlier marks back to `P` and runs a FIFO queue with a predecessor map.
  - It marks expanded cells `V` and queued cells `F`, and stops when the end is dequeued.
  - It walks the predecessors back from the end, reverses that walk, and writes `.` on every cell of the resulting path.

The Dafny model has six modules.

- `Grid` (`grid.dfy`) holds what both copies share:
  - the cell states, coordinates and bounds;
  - `Board`, a map from coordinate to cell that reads the in-place `array2` grid as a value;
  - routes through non-wall cells.
- `Prims` (`prims.dfy`) is the generator.
  - Each step is a function on a `Gen(board, frontier)` value.
  - The generator's invariant is proved preserved by lemmas: a duplicate-free frontier whose cells all read `F`, carved cells only in the interior, and a spanning-tree witness rooted at `(1,1)`.
  - The array-updating methods are proved to compute exactly those functions.
  - The end result is proved: `Generated` says the border is wall, every room is carved, start and end are stamped, and every open cell is reachable from the start.
- `Bfs` (`bfs.dfy`) is the solver, built the same way on `Search(board, queue, visited)` values.
  - The breadth-first invariant uses a ghost distance map. Its parts:
    - the queue is duplicate-free and ordered by distance;
    - predecessors are adjacent and one step closer;
    - expanded cells have all their open neighbours visited.
  - It is proved to give the two answers: "no route exists" when the queue runs dry, and "the reconstructed path is a shortest route" when the end is dequeued.
- `Speed` (`speed.dfy`) is the animation-speed index.
- `MazeJs` (`mazejs.dfy`) is the browser copy.
  - The steps `generateStep`, `solveStep` and `animatePath` are closures that update locals of the function that created them. Each becomes a method that takes those locals and returns their new values.
  - The page's globals are the fields of class `MazePage`.
  - The timer chain re-scheduling each step becomes a loop that calls the step until it stops returning `Continue`.
- `PyBfs` (`pybfs.dfy`) is the desktop copy.
  - Its globals are the fields of class `PyMaze`.
  - Its generator and solver are the source's `while` loops.

Randomness becomes a parameter.
- `Math.random` and `random.choice` become a function `rand: nat -> nat`.
- Step `t` of the generator picks the frontier entry `rand(2t) % |frontier|` and the carved neighbour `rand(2t+1) % |neighbours|`.
- Every property below holds for every such function.

Two behaviours of the source show up in the model.
- Both copies mark the end cell `.` as well, because the reconstructed path excludes the start and includes the end.
- On a 3 x 3 grid the start and the end coincide, and the second stamp leaves `E` on `(1,1)`.

## Model

| member | source | states |
|---|---|---|
| Grid.Pick | maze.js:135 | a random pick is a valid index into the list it is taken from |
| Grid.Put | maze.js:100 | writing one cell of the grid array changes that cell of the board and no other |
| Prims.TwoAwayRoom | maze.js:142-153 | the cells two steps from a room (under the source's bounds checks) are rooms; the cell between is interior, adjacent to both, and not a room |
| Prims.PathNeighbors | maze.js:140-153 | the candidate list holds exactly the in-bounds `P` cells two steps away, and is non-empty exactly when one exists |
| Prims.PathNeighborAt | maze.js:142-153 | one direction of the neighbour search on the array: the cell two steps away is appended exactly when it passes that direction's bounds check and reads `P` |
| Prims.EnlistF | PyBFS.py:150-154 | one direction of the frontier update keeps the grid's cells. What it does to the list and the marks is stated by `Prims.EnlistKeeps` and, on the array, by `Prims.EnlistAt` |
| Prims.EnlistIf | PyBFS.py:150-154 | the same under that direction's bounds check; its properties are those of `Prims.EnlistKeeps` |
| Prims.AddFrontierFrom | PyBFS.py:147-172 | the remaining directions of the frontier update keep the grid's cells. Its properties are stated by `Prims.AddFrontierFromKeeps` and `Prims.AddFrontierSteps` |
| Prims.AddFrontierF | maze.js:163-187 | the whole frontier update keeps the grid's cells. Its properties are stated by `Prims.AddFrontierKeeps` and, on the array, by `Prims.AddFrontierCells` |
| Prims.CarveF | maze.js:140-187 | carving a picked entry keeps the grid's shape. That the room and the cell towards a carved neighbour read `P`, that the entry leaves the list and that the invariant is restored is stated by `Prims.CarveKeeps` and, on the array, by `Prims.CarveAt` |
| Prims.RemoveAt | maze.js:137 | the splice shortens the list by one. Which entries remain, and in what order, is stated by `Prims.RemoveAtFacts` |
| Prims.StampF | maze.js:127-128 | the end reads `E`, the start reads `S` unless it is the end cell (the `E` written second wins), and every other cell is unchanged |
| Prims.BeginF | maze.js:89-121 | the start state has the grid's shape. That it satisfies the invariant is stated by `Prims.BeginKeeps`, and that the browser's seed computes it by `MazeJs.SeedFrontier` |
| Prims.StepF | maze.js:124-188 | one call of the generation step keeps the grid's shape and reports Done exactly on an empty frontier, which stays empty, and Continue otherwise. Its other properties are stated by `Prims.StepKeeps` and `Prims.DoneGenerated` |
| Prims.FindPathNeighbors | PyBFS.py:116-125 | the neighbour search on the grid array yields that candidate list for the current grid |
| Prims.FillWalls | PyBFS.py:98-100 | after the nested loops every cell of the grid is `#` |
| Prims.EnlistAt | PyBFS.py:150-154 | one direction of the frontier update: a bounds-checked wall cell not yet listed is appended and marked `F`, nothing else changes |
| Prims.AddFrontierCells | PyBFS.py:147-172 | the four direction checks applied in order to the grid and list |
| Prims.AddFrontierSteps | maze.js:163-187 | four successive single-direction updates compose to the whole frontier update |
| Prims.EnlistKeeps | maze.js:164-187 | listing a cell keeps the generator invariant (no duplicates, every listed cell reads `F`, only interior cells touched); the cell then reads `P` or `F` and carved cells are unchanged |
| Prims.AddFrontierFromKeeps | PyBFS.py:147-172 | the frontier update keeps the invariant, only appends to the list, leaves non-wall cells unchanged, and leaves every bounds-checked cell two steps away carved or listed |
| Prims.AddFrontierKeeps | maze.js:163-187 | after the update around a newly carved room the full invariant holds again, the old list is kept, and no carved cell changes |
| Prims.BeginKeeps | maze.js:92-121 | the start state (all walls, `(1,1)` carved, its cells two steps away listed) satisfies the invariant, and `(1,1)` is its only `P` cell |
| Prims.RemoveAtFacts | maze.js:134-137 | splicing out entry `k` removes exactly that entry, keeps the order of the others and keeps the list duplicate-free |
| Prims.RemoveFirst | PyBFS.py:113 | `list.remove` of a value in the list shortens it by one (the call always removes a value just picked from the list) |
| Prims.RemoveFirstContents | PyBFS.py:113 | `list.remove` takes exactly one copy of the value out of the list's contents |
| Prims.RemoveFirstAt | PyBFS.py:112-113 | removing the chosen value from a duplicate-free list is the same as splicing out its index |
| Prims.JoinKeeps | maze.js:155-161 | carving a frontier room and the cell towards a carved neighbour extends the spanning tree, so the carved cells stay one connected region containing `(1,1)` |
| Prims.CarveKeeps | PyBFS.py:127-139 | a complete loop body (join, then frontier update) restores the invariant and adds the room to the tree. The room and the cell towards some carved cell two steps away read `P`, the room is not listed, and the old list is kept at the front |
| Prims.CarveAt | maze.js:155-187 | the carve-and-extend code on the array computes the step function on the grid's value |
| Prims.StepKeeps | maze.js:134-187 | with a non-empty frontier every step continues, keeps the invariant and strictly grows the carved set. The picked entry leaves the list, the other entries stay in order at its front, and the picked cell and the cell halfway to a carved cell two steps away both read `P` |
| Prims.CarvedShrinks | PyBFS.py:110-139 | the set of cells not yet carved strictly shrinks, so generation terminates |
| Prims.AllRoomsCarved | maze.js:125 | once the frontier is empty every room (odd, odd interior cell) has been carved |
| Prims.RouteToRoot | maze.js:155-161 | every carved cell is reached from `(1,1)` along adjacent carved cells |
| Prims.DoneGenerated | maze.js:125-128 | the stamped final grid is a finished maze: `S` and `E` in place, only `#` `P` `S` `E`, wall border, every room open, every open cell reachable from the start |
| Prims.Stamp | PyBFS.py:142-143 | stamps `S` on the start and then `E` on the end |
| Bfs.Cleared | maze.js:224-225 | `#`, `S` and `E` are kept and every other cell state becomes `P` |
| Bfs.ResetF | maze.js:222-228 | the reset keeps the grid's cells and applies the reset rule to each of them |
| Bfs.BeginSearch | maze.js:232-234 | the search starts on the given grid with only the start queued and only the start visited, with no predecessor. That this satisfies the invariant is stated by `Bfs.SearchInit` |
| Bfs.DiscoverF | maze.js:294-303 | looking at one neighbour keeps the grid's cells. Its other properties are stated by `Bfs.DiscoverKeeps` and, on the array, by `Bfs.DiscoverAt` |
| Bfs.DiscoverFrom | maze.js:288-305 | the remaining neighbour checks keep the grid's cells. Their properties are stated by `Bfs.DiscoverFromKeeps` and `Bfs.DiscoverSteps` |
| Bfs.ExpandF | maze.js:282-305 | expanding a cell keeps the grid's cells. Its other properties are stated by `Bfs.DequeueKeeps`, `Bfs.DiscoverFromKeeps` and, on the array, by `Bfs.Expand` |
| Bfs.SolveStepF | maze.js:236-305 | one call of the search step keeps the grid's cells and never reports Done. It reports Exhausted exactly on an empty queue, changing nothing, and Found exactly when the head is the end, only removing the head. Its other properties are stated by `Bfs.SolveStepKeeps`, `Bfs.FoundAll` and `Bfs.ExhaustedNoRoute` |
| Bfs.ResetMarks | PyBFS.py:177-180 | the reset loops apply that rule to every cell of the grid |
| Bfs.SearchInit | PyBFS.py:184-185 | the queue holding only the start, with no predecessor, satisfies the breadth-first invariant |
| Bfs.WallsKept | PyBFS.py:194-206 | a search never turns a wall into something else or anything else into a wall |
| Bfs.PredGrows | maze.js:296-297 | a newly discovered cell gets its adjacent, already visited finder as predecessor, one step further from the start |
| Bfs.QueueGrows | maze.js:296 | appending an undiscovered cell keeps the queue duplicate-free and ordered by distance |
| Bfs.DiscoverKeeps | maze.js:294-303 | looking at one neighbour keeps the invariant, whether the neighbour is taken or skipped |
| Bfs.DiscoverAt | maze.js:293-304 | one neighbour check on the array: a new, in-bounds, non-wall cell is queued, given its predecessor and, unless it is the end, marked `F` |
| Bfs.DiscoverSteps | maze.js:288-305 | the four neighbour checks in the order up, down, left, right compose to the expansion |
| Bfs.DiscoverFromKeeps | PyBFS.py:199-207 | expanding a cell keeps the invariant and visits all its open neighbours. Earlier distances are unchanged, and the visited set grows exactly as much as the queue, so each cell is queued at most once |
| Bfs.DequeueKeeps | maze.js:243 | taking the head of the queue and marking it `V` (the start excepted) keeps the invariant at the head's level |
| Bfs.Expand | PyBFS.py:193-207 | the expansion code on the array computes the expansion function on the grid's value |
| Bfs.SolveStepKeeps | maze.js:236-305 | a step that neither finds the end nor exhausts the queue keeps the invariant. It never lowers the level, keeps earlier distances, and either visits a new cell or shortens the queue |
| Bfs.ExpandStep | PyBFS.py:188-207 | one loop iteration on the array is that step, with the same guarantees |
| Bfs.VisitedInBounds | maze.js:294 | every visited cell lies inside the grid |
| Bfs.RouteVisited | maze.js:236-305 | every cell of a route from the start is visited, at a distance no larger than its position on the route, once the search has reached that far |
| Bfs.FoundShortest | maze.js:245 | when the end is dequeued its distance is at most the length of every route to it |
| Bfs.FoundAll | PyBFS.py:190-191 | at the `break` the end is visited, the predecessor map is sound, and the end's distance bounds every route |
| Bfs.ExhaustedNoRoute | maze.js:237-241 | when the queue runs dry the end was never visited and no route from the start to the end exists |
| Bfs.MarksOnly | PyBFS.py:193-207 | during a search the grid holds only `V` and `F` marks on top of the reset grid, never on the start or the end |
| Bfs.SearchAll | PyBFS.py:184-207 | the search loop leaves only its marks and a sound predecessor map. The end is visited with a distance bounding every route, or no route exists |
| Bfs.PredRoute | PyBFS.py:210-215 | the predecessor chain of any visited cell (each cell after the first has the one before it as predecessor) is a route from the start, one cell longer than its distance |
| Bfs.Reversed | maze.js:255 | reversing a list puts entry `k` at position `len - 1 - k` |
| Bfs.BackWalkStep | maze.js:250-253 | each step of the backward walk moves to a visited predecessor strictly closer to the start |
| Bfs.BackWalkDone | maze.js:255 | when the walk reaches the start, the reversed list has the end's distance as its length; entry `k` is at distance `k+1`, it follows the start as a route, it ends at the end, and each entry's recorded predecessor is the entry before it (the start for the first) |
| Bfs.Reconstruct | maze.js:247-255 | the reconstruction loop returns that path: the start excluded, the end last, consecutive cells adjacent, length equal to the end's distance, and each cell's recorded predecessor the cell before it, so the path is the predecessor chain itself |
| Bfs.ChainShortest | PyBFS.py:210-217 | a path with those properties is a shortest route to the end |
| Bfs.MarkedF | PyBFS.py:219-220 | marking a path keeps the grid's cells, makes every path cell read `.` and leaves every other cell unchanged |
| Bfs.MarkedNext | maze.js:266-269 | marking entry `k` after the first `k` is marking the first `k+1` |
| Bfs.MarkPath | PyBFS.py:219-220 | writes `.` on every path cell, the end included, and nothing else |
| Bfs.MarkLeaves | PyBFS.py:219-220 | after marking, the path cells read `.` and the rest is still only search marks on the reset grid |
| Speed.NextSpeed | maze.js:333 | the next index stays in the table: one more, or back to 0 after the last |
| Speed.ToggledMod | maze.js:332-335 | `n` presses from a valid index add `n` modulo the table size |
| Speed.FiveTogglesReturn | PyBFS.py:230-234 | five presses return to the starting index |
| MazeJs.SeedAt | maze.js:106-121 | one direction of the seed (up, down, left or right by index): a bounds-checked wall cell is listed and marked `F` |
| MazeJs.SeedFrontier | maze.js:102-121 | the seed around `(1,1)` gives the same state as the general frontier update, although it omits the "already listed" test |
| MazeJs.GenerateStep | maze.js:124-200 | one step is the step function. It reports Done exactly on an empty frontier, and then the grid is a finished maze; otherwise it keeps the invariant and shrinks the uncarved set |
| MazeJs.SolveStep | maze.js:236-313 | one step is the search step function. On Continue the invariant holds and progress is made; on Exhausted no route exists; on Found the reconstructed path is a shortest route; on either stop the grid holds only search marks |
| MazeJs.AnimateStep | maze.js:260-276 | stops exactly when the index reaches the path's end; otherwise writes `.` on the next path cell and advances the index |
| MazeJs.SearchSteps | maze.js:231-316 | the step chain ends in Found exactly when the end is reachable, with a shortest route when it is found, and leaves only search marks |
| MazeJs.OpenBeforeStep | maze.js:322-327 | scanning one more cell adds it to the set of non-wall cells passed exactly when it is not a wall |
| MazeJs.OpenBeforeNext | maze.js:322-327 | each inner-loop iteration adds one to the count exactly for a non-wall cell |
| MazeJs.OpenBeforeRow | maze.js:322-328 | the count after the last row is the number of non-wall cells of the grid |
| MazeJs.RouteCells | maze.js:247-255 | every cell of a reconstructed route is an in-bounds open cell, so it can be written |
| MazeJs.MazePage.constructor | maze.js:14-33 | the page once loaded: the globals, then `setupMaze` on page load, give a 21 x 31 all-wall grid and the medium speed |
| MazeJs.MazePage.SetupMaze | maze.js:38-41 | a fresh rows x cols grid of walls; the speed is untouched |
| MazeJs.MazePage.GenerateMazePrims | maze.js:84-204 | whatever the random choices, generation ends with a finished maze |
| MazeJs.MazePage.IsPathFromMazeGenerated | maze.js:319-330 | true exactly when more than two cells are not walls |
| MazeJs.MazePage.SolveMazeBFS | maze.js:212-317 | with two or fewer open cells nothing changes. Otherwise it reports a route exactly when one exists in the reset grid; the marked path plus the start is a shortest route; the rest of the grid holds only search marks |
| MazeJs.MazePage.AnimatePath | maze.js:258-278 | the animation loop writes `.` on every path cell and changes no other cell, so the search marks stay in place |
| MazeJs.MazePage.ToggleAnimationSpeed | maze.js:332-335 | the speed index moves to the next entry, wrapping round |
| PyBfs.PyMaze.constructor | PyBFS.py:294-296 | the state after start-up: `main` runs `setup_maze` on the globals of lines 39-43, giving a 21 x 31 all-wall grid and the medium speed |
| PyBfs.PyMaze.SetupMaze | PyBFS.py:45-48 | a fresh rows x cols grid of walls; the speed is untouched |
| PyBfs.PyMaze.GenerateMazePrims | PyBFS.py:93-145 | whatever the random choices, generation ends with a finished maze |
| PyBfs.PyMaze.SolveMazeBfs | PyBFS.py:174-228 | returns true exactly when the end is reachable in the reset grid. The `.` path plus the start is then a shortest route; the rest of the grid holds only search marks |
| PyBfs.PyMaze.ToggleAnimationSpeed | PyBFS.py:230-234 | the speed index moves to the next entry, wrapping round |

## Left out

- Drawing is not modelled: the canvas and turtle calls, the colours, and redrawing the whole grid. They only display the grid.
- The UI is not modelled: the buttons, enabling and disabling them, the alert, the status text and event handling. They belong to the host page or window.
- Timing is not modelled: `setTimeout`, `requestAnimationFrame`, `time.sleep` and the delay values in both speed tables. The delays only pace the drawing, so a timer chain is a loop that calls the step until it stops.
- The race where a new generation or search starts while an old timer chain is still pending is not modelled. It is host scheduling, not engine logic.
- The distribution of the random choices is not modelled. Only the chosen index is, and every property holds for every sequence of choices.
- The browser steps are methods over the values of the captured locals, not objects that share them. Aliasing between a pending closure and the page's global `maze` is not captured.
- The browser copy calls the first `generateStep`, `solveStep` and `animatePath` directly and the rest from timers. The model treats all calls alike, as iterations of one loop.
- `"i,j"` string keys in the browser copy's predecessor map are modelled as coordinate pairs.
- PyBfs.PyMaze.SolveMazeBfs: says the marked path is a shortest route, not which of several shortest routes the up, down, left, right order picks.
- MazeJs.MazePage.SolveMazeBFS: says the marked path is a shortest route, not which of several shortest routes the up, down, left, right order picks.
- Prims.RemoveFirst: the error `list.remove` raises for a value that is not in the list is not modelled. The function requires the value to be present, which holds at its only call, where the value was just picked from the list.
- Prims.DoneGenerated: states that the open cells are connected, but not that the carved passages form a tree without cycles (a perfect maze). The spanning-tree witness is used only as a proof device, because carried into the result it would have to describe the stamped grid's whole edge set.
- MazeJs.MazePage.GenerateMazePrims: proves a finished, connected maze, but not that its passages form a tree without cycles, for the same reason.
- PyBfs.PyMaze.GenerateMazePrims: proves a finished, connected maze, but not that its passages form a tree without cycles, for the same reason.
