/** The browser copy of the engine. Generation, solving and the path animation are
    resumable steps that re-schedule themselves on a timer until they finish; each
    step is a closure that updates local variables of the function that created it.
    Here each step is a method that takes those locals and returns their new values,
    the page's global variables are the fields of `MazePage`, and the timer chain
    becomes a loop in the page's methods. */
module MazeJs {
  import opened Grid
  import opened Prims
  import opened Bfs
  import opened Speed

  /** One direction of seeding the frontier around the start: under the bounds check,
      a wall cell is listed and marked 'F'. Unlike the later frontier additions this
      one does not look whether the cell is listed already. */
  method SeedAt(m: array2<Cell>, k: nat, frontier: seq<Pos>) returns (frontier': seq<Pos>)
    requires ValidDims(m.Length0, m.Length1) && k < 4
    requires Dir(StartPos(), k) !in frontier
    modifies m
    ensures Gen(Snap(m), frontier') ==
      EnlistIf(DirOk(m.Length0, m.Length1, StartPos(), k), Gen(old(Snap(m)), frontier), Dir(StartPos(), k))
  {
    frontier' := frontier;
    var n := Dir(StartPos(), k);
    if DirOk(m.Length0, m.Length1, StartPos(), k) && m[n.0, n.1] == Wall {
      frontier' := frontier + [n];
      Put(m, n, Frontier);
    }
  }

  /** The frontier cells of the start, listed and marked in the order up, down, left,
      right. Although the duplicate check is missing, the result is the generator's
      usual first state: the four cells differ and the list starts empty. */
  method SeedFrontier(m: array2<Cell>) returns (frontier: seq<Pos>)
    requires ValidDims(m.Length0, m.Length1)
    requires Snap(m) == AllWallBoard(m.Length0, m.Length1)[StartPos() := Path]
    modifies m
    ensures Gen(Snap(m), frontier) == BeginF(m.Length0, m.Length1)
  {
    ghost var s0 := Gen(Snap(m), []);
    var f1 := SeedAt(m, 0, []);
    ghost var s1 := Gen(Snap(m), f1);
    var f2 := SeedAt(m, 1, f1);
    ghost var s2 := Gen(Snap(m), f2);
    var f3 := SeedAt(m, 2, f2);
    ghost var s3 := Gen(Snap(m), f3);
    frontier := SeedAt(m, 3, f3);
    AddFrontierSteps(m.Length0, m.Length1, s0, StartPos(), s1, s2, s3, Gen(Snap(m), frontier));
  }

  /** One timer callback of the generator, over the grid `m` and the frontier list:
      `r1` picks the frontier entry and `r2` the carved neighbour to join it to. With
      an empty frontier it stamps 'S' and 'E' and reports Done, leaving a finished
      maze; otherwise it reports Continue, keeps the generator's invariant and carves
      at least one more cell. */
  method GenerateStep(m: array2<Cell>, frontier: seq<Pos>, r1: nat, r2: nat,
                      ghost depth: map<Pos, nat>, ghost parent: map<Pos, Pos>)
    returns (res: StepResult, frontier': seq<Pos>, ghost depth': map<Pos, nat>, ghost parent': map<Pos, Pos>)
    requires GenInv(m.Length0, m.Length1, Gen(Snap(m), frontier), depth, parent)
    modifies m
    ensures (Gen(Snap(m), frontier'), res) == StepF(m.Length0, m.Length1, Gen(old(Snap(m)), frontier), r1, r2)
    ensures res == Continue || res == Done
    ensures res == Done ==> Generated(m.Length0, m.Length1, Snap(m))
    ensures res == Continue ==>
      GenInv(m.Length0, m.Length1, Gen(Snap(m), frontier'), depth', parent') &&
      Cells(m.Length0, m.Length1) - depth'.Keys < Cells(m.Length0, m.Length1) - depth.Keys
  {
    ghost var s := Gen(Snap(m), frontier);
    if |frontier| == 0 {
      DoneGenerated(m.Length0, m.Length1, s, depth, parent);
      Stamp(m);
      return Done, frontier, depth, parent;
    }
    var idx := Pick(|frontier|, r1);
    var pos := frontier[idx];
    frontier' := RemoveAt(frontier, idx);
    frontier' := CarveAt(m, pos, frontier', r2);
    depth', parent' := StepKeeps(m.Length0, m.Length1, s, depth, parent, r1, r2);
    CarvedShrinks(m.Length0, m.Length1, s, depth, parent, depth', parent', Gen(Snap(m), frontier'));
    res := Continue;
  }

  /** One timer callback of the search, over the grid `m`, the queue and the
      predecessor map. An empty queue reports Exhausted: the end cannot be reached.
      Dequeuing the end reports Found and reconstructs the path, which together with
      the start is a shortest route to the end. Any other cell is expanded and the
      step reports Continue, keeping the search invariant and visiting a new cell or
      shortening the queue. */
  method SolveStep(m: array2<Cell>, queue: seq<Pos>, visited: map<Pos, Option<Pos>>,
                   ghost g0: Board, ghost dist: map<Pos, nat>, ghost level: nat)
    returns (res: StepResult, queue': seq<Pos>, visited': map<Pos, Option<Pos>>, path: seq<Pos>,
             ghost dist': map<Pos, nat>, ghost level': nat)
    requires BfsInv(m.Length0, m.Length1, g0, Search(Snap(m), queue, visited), dist, level)
    modifies m
    ensures (Search(Snap(m), queue', visited'), res) ==
      SolveStepF(m.Length0, m.Length1, Search(old(Snap(m)), queue, visited))
    ensures res == Continue ==>
      BfsInv(m.Length0, m.Length1, g0, Search(Snap(m), queue', visited'), dist', level') &&
      (Unvisited(m.Length0, m.Length1, Search(Snap(m), queue', visited')) <
         Unvisited(m.Length0, m.Length1, Search(old(Snap(m)), queue, visited)) ||
       (Unvisited(m.Length0, m.Length1, Search(Snap(m), queue', visited')) ==
          Unvisited(m.Length0, m.Length1, Search(old(Snap(m)), queue, visited)) &&
        |queue'| < |queue|))
    ensures res == Exhausted ==>
      !Reachable(OpenOf(g0), StartPos(), EndPos(m.Length0, m.Length1)) &&
      SearchLeaves(m.Length0, m.Length1, g0, Snap(m), [])
    ensures res == Found ==>
      ShortestRoute(OpenOf(g0), [StartPos()] + path, EndPos(m.Length0, m.Length1)) &&
      Reachable(OpenOf(g0), StartPos(), EndPos(m.Length0, m.Length1)) &&
      SearchLeaves(m.Length0, m.Length1, g0, Snap(m), [])
  {
    ghost var s := Search(Snap(m), queue, visited);
    path := [];
    if |queue| == 0 {
      ExhaustedNoRoute(m.Length0, m.Length1, g0, s, dist, level);
      MarksOnly(m.Length0, m.Length1, g0, s, dist, level);
      return Exhausted, queue, visited, path, dist, level;
    }
    if queue[0] == EndPos(m.Length0, m.Length1) {
      FoundAll(m.Length0, m.Length1, g0, s, dist, level);
      MarksOnly(m.Length0, m.Length1, g0, s, dist, level);
      path := Reconstruct(visited, queue[0], dist, OpenOf(g0));
      ChainShortest(OpenOf(g0), dist, queue[0], path);
      return Found, queue[1..], visited, path, dist, level;
    }
    queue', visited', dist', level' := ExpandStep(m, queue, visited, g0, dist, level);
    res := Continue;
  }

  /** One timer callback of the path animation: with `pathIdx` past the last path
      cell it reports that the path is done; otherwise it marks path cell `pathIdx`
      with '.' and moves to the next. */
  method AnimateStep(m: array2<Cell>, path: seq<Pos>, pathIdx: nat) returns (done: bool, pathIdx': nat)
    requires pathIdx <= |path|
    requires forall k | 0 <= k < |path| :: InBounds(m.Length0, m.Length1, path[k])
    modifies m
    ensures done <==> pathIdx == |path|
    ensures done ==> pathIdx' == pathIdx && Snap(m) == old(Snap(m))
    ensures !done ==> pathIdx' == pathIdx + 1 && Snap(m) == old(Snap(m))[path[pathIdx] := Solution]
  {
    if pathIdx >= |path| {
      return true, pathIdx;
    }
    Put(m, path[pathIdx], Solution);
    return false, pathIdx + 1;
  }

  /** The search as the timer runs it on the grid `m`: the start queued and visited,
      then search steps until one reports Found or Exhausted. On Found, `path`
      together with the start is a shortest route to the end; on Exhausted there is
      no route. Either way the grid holds only the search's 'V' and 'F' marks. */
  method SearchSteps(m: array2<Cell>) returns (res: StepResult, path: seq<Pos>)
    requires ValidDims(m.Length0, m.Length1)
    modifies m
    ensures res == Found || res == Exhausted
    ensures var g0 := old(Snap(m)); var e := EndPos(m.Length0, m.Length1);
      (res == Found <==> Reachable(OpenOf(g0), StartPos(), e)) &&
      (res == Found ==> ShortestRoute(OpenOf(g0), [StartPos()] + path, e)) &&
      SearchLeaves(m.Length0, m.Length1, g0, Snap(m), [])
  {
    var rows, cols := m.Length0, m.Length1;
    ghost var g0 := Snap(m);
    var queue: seq<Pos> := [StartPos()];
    var visited: map<Pos, Option<Pos>> := map[StartPos() := None];
    SearchInit(rows, cols, g0);
    ghost var dist: map<Pos, nat> := map[StartPos() := 0];
    ghost var level: nat := 0;
    res, path := Continue, [];
    while res == Continue
      invariant res == Continue ==> BfsInv(rows, cols, g0, Search(Snap(m), queue, visited), dist, level)
      invariant res == Exhausted ==>
        !Reachable(OpenOf(g0), StartPos(), EndPos(rows, cols)) && SearchLeaves(rows, cols, g0, Snap(m), [])
      invariant res == Found ==>
        ShortestRoute(OpenOf(g0), [StartPos()] + path, EndPos(rows, cols)) &&
        Reachable(OpenOf(g0), StartPos(), EndPos(rows, cols)) && SearchLeaves(rows, cols, g0, Snap(m), [])
      invariant res == Continue || res == Exhausted || res == Found
      decreases res == Continue, Unvisited(rows, cols, Search(Snap(m), queue, visited)), |queue|
    {
      res, queue, visited, path, dist, level := SolveStep(m, queue, visited, g0, dist, level);
    }
  }

  /** The non-wall cells of `g` in rows before `i`, and in row `i` before column `j`:
      the cells a row-by-row scan has passed. */
  ghost function OpenBefore(g: Board, i: int, j: int): set<Pos> {
    set p | p in g && g[p] != Wall && (p.0 < i || (p.0 == i && p.1 < j))
  }

  /** Scanning one more cell adds that cell to the set exactly when it is not a wall. */
  lemma OpenBeforeStep(g: Board, i: int, j: int)
    requires (i, j) in g
    ensures (i, j) !in OpenBefore(g, i, j)
    ensures OpenBefore(g, i, j + 1) ==
      OpenBefore(g, i, j) + (if g[(i, j)] != Wall then {(i, j)} else {})
  {
    var before, after := OpenBefore(g, i, j), OpenBefore(g, i, j + 1);
    var added: set<Pos> := if g[(i, j)] != Wall then {(i, j)} else {};
    assert forall p :: p in after <==> p in before || p in added;
  }

  /** Scanning one more cell adds one to the count exactly when the cell is not a wall. */
  lemma OpenBeforeNext(g: Board, i: int, j: int)
    requires (i, j) in g
    ensures |OpenBefore(g, i, j + 1)| == |OpenBefore(g, i, j)| + (if g[(i, j)] != Wall then 1 else 0)
  {
    OpenBeforeStep(g, i, j);
  }

  /** The end of one row is the start of the next, and after the last row the scan has
      passed every non-wall cell. */
  lemma OpenBeforeRow(rows: int, cols: int, g: Board, i: int)
    requires Shaped(rows, cols, g) && 0 <= i
    ensures OpenBefore(g, i, cols) == OpenBefore(g, i + 1, 0)
    ensures i == rows - 1 ==> OpenBefore(g, i + 1, 0) == OpenOf(g)
  {
  }

  /** The cells of a route from the start through the open cells of a grid, after the
      start, are open cells inside the grid. */
  lemma RouteCells(rows: int, cols: int, g0: Board, path: seq<Pos>)
    requires Shaped(rows, cols, g0) && IsRoute([StartPos()] + path, StartPos(), OpenOf(g0))
    ensures forall k | 0 <= k < |path| :: path[k] in OpenOf(g0) && InBounds(rows, cols, path[k])
  {
    forall k | 0 <= k < |path|
      ensures path[k] in OpenOf(g0) && InBounds(rows, cols, path[k])
    {
      assert ([StartPos()] + path)[k + 1] == path[k];
    }
  }

  /** The page: its global variables (the grid, its dimensions and the speed index). */
  class MazePage {
    var maze: array2<Cell>
    const rows: int
    const cols: int
    var animationSpeedIdx: nat

    /** The grid has the configured odd dimensions and the speed index is in range. */
    ghost predicate Valid()
      reads this
    {
      ValidDims(rows, cols) && maze.Length0 == rows && maze.Length1 == cols &&
      animationSpeedIdx < SpeedCount
    }

    /** The page once loaded: a 21 x 31 all-wall grid and the default speed. */
    constructor ()
      ensures Valid() && rows == 21 && cols == 31 && animationSpeedIdx == DefaultSpeedIdx
      ensures Snap(maze) == AllWallBoard(rows, cols)
    {
      rows, cols := 21, 31;
      animationSpeedIdx := DefaultSpeedIdx;
      var m := new Cell[21, 31]((i, j) => Wall);
      SnapIs(m, AllWallBoard(21, 31));
      maze := m;
    }

    /** Replaces the grid with a fresh rows x cols grid of walls. */
    method SetupMaze()
      requires ValidDims(rows, cols)
      modifies this
      ensures fresh(maze) && maze.Length0 == rows && maze.Length1 == cols
      ensures Snap(maze) == AllWallBoard(rows, cols)
      ensures animationSpeedIdx == old(animationSpeedIdx)
    {
      var m := new Cell[rows, cols]((i, j) => Wall);
      SnapIs(m, AllWallBoard(rows, cols));
      maze := m;
    }

    /** Randomised Prim generation: the synchronous start (a fresh wall grid, (1,1)
        carved, its frontier cells listed) and then generation steps, the first one
        called directly and each later one by the timer, until a step reports Done.
        The t-th step draws `rand(2t)` and `rand(2t + 1)`. */
    method GenerateMazePrims(rand: nat -> nat)
      requires Valid()
      modifies this
      ensures Valid() && fresh(maze) && animationSpeedIdx == old(animationSpeedIdx)
      ensures Generated(rows, cols, Snap(maze))
    {
      SetupMaze();
      var m := maze;
      FillWalls(m);
      Put(m, StartPos(), Path);
      var frontier := SeedFrontier(m);
      BeginKeeps(rows, cols);
      ghost var depth: map<Pos, nat> := map[StartPos() := 0];
      ghost var parent: map<Pos, Pos> := map[];
      var t: nat := 0;
      var res := Continue;
      while res == Continue
        invariant maze == m && fresh(m) && Valid() && animationSpeedIdx == old(animationSpeedIdx)
        invariant res == Continue || res == Done
        invariant res == Continue ==> GenInv(rows, cols, Gen(Snap(m), frontier), depth, parent)
        invariant res == Done ==> Generated(rows, cols, Snap(m))
        decreases res == Continue, Cells(rows, cols) - depth.Keys
      {
        res, frontier, depth, parent := GenerateStep(m, frontier, rand(2 * t), rand(2 * t + 1), depth, parent);
        t := t + 1;
      }
    }

    /** Counts the non-wall cells; the grid counts as generated when there are more
        than two (more than the start and the end). */
    method IsPathFromMazeGenerated() returns (b: bool)
      requires Valid()
      ensures b <==> |OpenOf(Snap(maze))| > 2
    {
      ghost var g := Snap(maze);
      var count := 0;
      for i := 0 to rows
        invariant count == |OpenBefore(g, i, 0)|
      {
        for j := 0 to cols
          invariant count == |OpenBefore(g, i, j)|
        {
          OpenBeforeNext(g, i, j);
          if maze[i, j] != Wall {
            count := count + 1;
          }
        }
        OpenBeforeRow(rows, cols, g, i);
      }
      OpenBeforeRow(rows, cols, g, rows - 1);
      b := count > 2;
    }

    /** Solves the maze by breadth-first search when it has been generated, and
        otherwise changes nothing. The marks of an earlier search are cleared; search
        steps run until one finds the end or runs out of cells; when the end was
        found, animation steps mark the path cell by cell. It reports whether the end
        is reachable; when it is, `route` is the path marked '.' (the start excluded,
        the end included), and together with the start it is a shortest route. */
    method SolveMazeBFS() returns (found: bool, ghost route: seq<Pos>)
      requires Valid()
      modifies maze
      ensures Valid() && animationSpeedIdx == old(animationSpeedIdx)
      ensures |OpenOf(old(Snap(maze)))| <= 2 ==> !found && route == [] && Snap(maze) == old(Snap(maze))
      ensures var g0 := ResetF(old(Snap(maze)));
        |OpenOf(old(Snap(maze)))| > 2 ==>
          (found <==> Reachable(OpenOf(g0), StartPos(), EndPos(rows, cols))) &&
          (found ==> ShortestRoute(OpenOf(g0), [StartPos()] + route, EndPos(rows, cols))) &&
          (!found ==> route == []) &&
          SearchLeaves(rows, cols, g0, Snap(maze), route)
    {
      var generated := IsPathFromMazeGenerated();
      if !generated {
        return false, [];
      }
      var m := maze;
      ResetMarks(m);
      ghost var g0 := Snap(m);
      var res, path := SearchSteps(m);
      if res == Exhausted {
        return false, [];
      }
      AnimatePath(g0, path);
      found, route := true, path;
    }

    /** The path animation: animation steps, the first called directly and each later
        one by the timer, until the whole path is marked. */
    method AnimatePath(ghost g0: Board, path: seq<Pos>)
      requires Valid()
      requires SearchLeaves(rows, cols, g0, Snap(maze), [])
      requires ShortestRoute(OpenOf(g0), [StartPos()] + path, EndPos(rows, cols))
      modifies maze
      ensures Snap(maze) == MarkedF(old(Snap(maze)), path)
      ensures SearchLeaves(rows, cols, g0, Snap(maze), path)
    {
      var m := maze;
      ghost var before := Snap(m);
      RouteCells(rows, cols, g0, path);
      var pathIdx := 0;
      var done := false;
      assert MarkedF(before, path[..0]) == before;
      while !done
        invariant pathIdx <= |path| && Snap(m) == MarkedF(before, path[..pathIdx])
        invariant done ==> pathIdx == |path|
        decreases |path| - pathIdx, !done
      {
        if pathIdx < |path| {
          MarkedNext(before, path, pathIdx);
        }
        done, pathIdx := AnimateStep(m, path, pathIdx);
      }
      assert path[..pathIdx] == path;
      MarkLeaves(rows, cols, g0, before, path);
    }

    /** Changes the animation speed to the next entry of the table, wrapping round. */
    method ToggleAnimationSpeed()
      requires Valid()
      modifies this
      ensures Valid() && animationSpeedIdx == NextSpeed(old(animationSpeedIdx))
      ensures maze == old(maze)
    {
      animationSpeedIdx := (animationSpeedIdx + 1) % SpeedCount;
    }
  }
}
