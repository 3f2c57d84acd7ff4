/** The desktop copy of the engine: the generator and the solver as plain loops over a
    rows x cols grid held in a global, with the speed index beside it. The globals are
    the fields of `PyMaze`. */
module PyBfs {
  import opened Grid
  import opened Prims
  import opened Bfs
  import opened Speed

  class PyMaze {
    var maze: array2<Cell>
    const rows: int
    const cols: int
    var animationSpeedIdx: nat

    /** The grid has the configured odd dimensions and the speed index is in range. */
    ghost predicate Valid()
      reads this
    {
      ValidDims(rows, cols) && maze.Length0 == rows && maze.Length1 == cols &&
      animationSpeedIdx < SpeedCount
    }

    /** The state once start-up has run `setup_maze` on the module-level globals: a
        21 x 31 all-wall grid and the default speed. */
    constructor ()
      ensures Valid() && rows == 21 && cols == 31 && animationSpeedIdx == DefaultSpeedIdx
      ensures Snap(maze) == AllWallBoard(rows, cols)
    {
      rows, cols := 21, 31;
      animationSpeedIdx := DefaultSpeedIdx;
      var m := new Cell[21, 31]((i, j) => Wall);
      SnapIs(m, AllWallBoard(21, 31));
      maze := m;
    }

    /** Replaces the grid with a fresh rows x cols grid of walls. */
    method SetupMaze()
      requires ValidDims(rows, cols)
      modifies this
      ensures fresh(maze) && maze.Length0 == rows && maze.Length1 == cols
      ensures Snap(maze) == AllWallBoard(rows, cols)
      ensures animationSpeedIdx == old(animationSpeedIdx)
    {
      var m := new Cell[rows, cols]((i, j) => Wall);
      SnapIs(m, AllWallBoard(rows, cols));
      maze := m;
    }

    /** Randomised Prim generation. `rand` stands for the random generator: the t-th
        iteration takes `rand(2t)` modulo the frontier size as the frontier cell and
        `rand(2t + 1)` modulo the number of carved neighbours as the one to join. */
    method GenerateMazePrims(rand: nat -> nat)
      requires Valid()
      modifies this
      ensures Valid() && fresh(maze) && animationSpeedIdx == old(animationSpeedIdx)
      ensures Generated(rows, cols, Snap(maze))
    {
      SetupMaze();
      var m := maze;
      FillWalls(m);
      Put(m, StartPos(), Path);
      var frontier := AddFrontierCells(m, StartPos(), []);
      BeginKeeps(rows, cols);
      ghost var depth: map<Pos, nat> := map[StartPos() := 0];
      ghost var parent: map<Pos, Pos> := map[];
      var t: nat := 0;
      while |frontier| > 0
        invariant maze == m && fresh(m) && Valid() && animationSpeedIdx == old(animationSpeedIdx)
        invariant GenInv(rows, cols, Gen(Snap(m), frontier), depth, parent)
        decreases Cells(rows, cols) - depth.Keys
      {
        ghost var s := Gen(Snap(m), frontier);
        var k := Pick(|frontier|, rand(2 * t));
        var pos := frontier[k];
        frontier := RemoveFirst(frontier, pos);
        RemoveFirstAt(s.frontier, k);
        frontier := CarveAt(m, pos, frontier, rand(2 * t + 1));
        ghost var depth', parent' := StepKeeps(rows, cols, s, depth, parent, rand(2 * t), rand(2 * t + 1));
        CarvedShrinks(rows, cols, s, depth, parent, depth', parent', Gen(Snap(m), frontier));
        depth, parent := depth', parent';
        t := t + 1;
      }
      DoneGenerated(rows, cols, Gen(Snap(m), frontier), depth, parent);
      Stamp(m);
    }

    /** Breadth-first search from the start to the end on the grid with the marks of
        any earlier search cleared. It reports whether the end is reachable; when it
        is, `route` is the path it marks with '.' (the start excluded, the end included),
        and together with the start it is a shortest route. Cells expanded read 'V',
        cells still queued 'F', and nothing else changes. */
    method SolveMazeBfs() returns (found: bool, ghost route: seq<Pos>)
      requires Valid()
      modifies maze
      ensures Valid() && animationSpeedIdx == old(animationSpeedIdx)
      ensures var g0 := ResetF(old(Snap(maze)));
        (found <==> Reachable(OpenOf(g0), StartPos(), EndPos(rows, cols))) &&
        (found ==> ShortestRoute(OpenOf(g0), [StartPos()] + route, EndPos(rows, cols))) &&
        (!found ==> route == []) &&
        SearchLeaves(rows, cols, g0, Snap(maze), route)
    {
      var m := maze;
      ResetMarks(m);
      ghost var g0 := Snap(m);
      var visited, dist := SearchAll(m);
      if EndPos(rows, cols) in visited {
        var path := Reconstruct(visited, EndPos(rows, cols), dist, OpenOf(g0));
        ChainShortest(OpenOf(g0), dist, EndPos(rows, cols), path);
        ghost var g := Snap(m);
        MarkPath(m, path);
        MarkLeaves(rows, cols, g0, g, path);
        found, route := true, path;
      } else {
        found, route := false, [];
      }
    }

    /** Changes the animation speed to the next entry of the table, wrapping round. */
    method ToggleAnimationSpeed()
      requires Valid()
      modifies this
      ensures Valid() && animationSpeedIdx == NextSpeed(old(animationSpeedIdx))
      ensures maze == old(maze)
    {
      animationSpeedIdx := (animationSpeedIdx + 1) % SpeedCount;
    }
  }
}
