/** The breadth-first solver shared by both copies of the engine: a FIFO queue, a
    predecessor map keyed by coordinate, 'V' on expanded cells and 'F' on queued ones.

    As for the generator, each step is a function on search-state values with its
    invariant proved as lemmas, and the array-updating methods at the end of the
    module compute exactly those functions. */
module Bfs {
  import opened Grid

  /** Solver state: the grid, the queue and the predecessor map (`None` for the start). */
  datatype Search = Search(board: Board, queue: seq<Pos>, visited: map<Pos, Option<Pos>>)

  /** Resetting one cell before a search: '#', 'S' and 'E' stay, anything else becomes 'P'. */
  function Cleared(c: Cell): (r: Cell)
    ensures c in {Wall, Start, End} ==> r == c
    ensures c !in {Wall, Start, End} ==> r == Path
  {
    if c == Wall || c == Start || c == End then c else Path
  }

  /** The whole grid reset. */
  function ResetF(g: Board): (r: Board)
    ensures r.Keys == g.Keys
    ensures forall p | p in g :: r[p] == Cleared(g[p])
  {
    map p | p in g :: Cleared(g[p])
  }

  /** The state a search starts from: only the start queued and visited. */
  function BeginSearch(g: Board): (r: Search)
    ensures r.board == g && |r.queue| == 1 && r.queue[0] == StartPos()
    ensures r.visited.Keys == {StartPos()} && r.visited[StartPos()].None?
  {
    Search(g, [StartPos()], map[StartPos() := None])
  }

  /** Looking at neighbour `n` of the cell `p` being expanded: an in-bounds, non-wall
      cell not yet visited is queued, gets `p` as predecessor and, unless it is the
      end, is marked 'F'. */
  function DiscoverF(rows: int, cols: int, s: Search, p: Pos, n: Pos): (r: Search)
    ensures r.board.Keys == s.board.Keys
  {
    if InBounds(rows, cols, n) && n in s.board && s.board[n] != Wall && n !in s.visited then
      Search(if n != EndPos(rows, cols) then s.board[n := Frontier] else s.board,
             s.queue + [n], s.visited[n := Some(p)])
    else s
  }

  /** Looking at the neighbours of `p` in directions `k`, ..., 3 (up, down, left, right). */
  function DiscoverFrom(rows: int, cols: int, s: Search, p: Pos, k: nat): (r: Search)
    ensures r.board.Keys == s.board.Keys
    decreases 4 - k
  {
    if k >= 4 then s
    else DiscoverFrom(rows, cols, DiscoverF(rows, cols, s, p, Around(p)[k]), p, k + 1)
  }

  /** Expanding the dequeued cell `p`: mark it 'V' unless it is the start, then look at
      its four neighbours. */
  function ExpandF(rows: int, cols: int, s: Search, p: Pos): (r: Search)
    ensures r.board.Keys == s.board.Keys
  {
    var b := if p != StartPos() && p in s.board then s.board[p := Visited] else s.board;
    DiscoverFrom(rows, cols, Search(b, s.queue, s.visited), p, 0)
  }

  /** One call of the resumable search step. An empty queue reports Exhausted. Otherwise
      the head is dequeued; if it is the end the step reports Found (with the head
      removed and nothing else changed), else it is expanded and the step reports
      Continue. */
  function SolveStepF(rows: int, cols: int, s: Search): (r: (Search, StepResult))
    ensures r.1 != Done && r.0.board.Keys == s.board.Keys
    ensures r.1 == Exhausted <==> |s.queue| == 0
    ensures r.1 == Exhausted ==> r.0 == s
    ensures r.1 == Found <==> |s.queue| > 0 && s.queue[0] == EndPos(rows, cols)
    ensures r.1 == Found ==> r.0 == Search(s.board, s.queue[1..], s.visited)
  {
    if |s.queue| == 0 then (s, Exhausted)
    else
      var p := s.queue[0];
      var s' := Search(s.board, s.queue[1..], s.visited);
      if p == EndPos(rows, cols) then (s', Found)
      else (ExpandF(rows, cols, s', p), Continue)
  }

  /** The marks a search has put on the reset grid `g0`: visited cells other than the
      start and the end read 'F' while queued and 'V' once expanded; the rest is `g0`. */
  ghost predicate MarksOk(rows: int, cols: int, g0: Board, s: Search) {
    s.board.Keys == g0.Keys &&
    forall p {:trigger s.board[p]} | p in g0 ::
      s.board[p] == (if p in s.visited && p != StartPos() && p != EndPos(rows, cols)
                     then (if p in s.queue then Frontier else Visited) else g0[p])
  }

  /** The predecessor map: the start has none; every other visited cell is open and its
      predecessor is a visited, adjacent cell one step closer to the start. */
  ghost predicate PredOk(open: set<Pos>, visited: map<Pos, Option<Pos>>, dist: map<Pos, nat>) {
    visited.Keys == dist.Keys &&
    StartPos() in visited && visited[StartPos()] == None && dist[StartPos()] == 0 &&
    forall v | v in visited && v != StartPos() ::
      visited[v].Some? && visited[v].value in visited && Adjacent(visited[v].value, v) &&
      v in open && dist[v] == dist[visited[v].value] + 1
  }

  /** The queue holds visited cells (the keys of `dist`) without repeats, in order of
      distance, each at the level or one beyond it. */
  ghost predicate QueueOk(queue: seq<Pos>, dist: map<Pos, nat>, level: nat) {
    Distinct(queue) &&
    (forall i | 0 <= i < |queue| :: queue[i] in dist && level <= dist[queue[i]] <= level + 1) &&
    (forall i, j | 0 <= i < j < |queue| :: dist[queue[i]] <= dist[queue[j]])
  }

  /** Expanded cells (visited, no longer queued) lie at most at the level, and those
      outside `hole` have all their open neighbours visited at most one step further. */
  ghost predicate ExpandedOk(open: set<Pos>, queue: seq<Pos>, dist: map<Pos, nat>, level: nat,
                             hole: set<Pos>)
  {
    forall u | u in dist && u !in queue ::
      dist[u] <= level &&
      (u !in hole ==> forall n | Adjacent(u, n) && n in open :: n in dist && dist[n] <= dist[u] + 1)
  }

  /** The breadth-first invariant over the reset grid `g0` at level `level`, except
      that the expanded cells in `hole` may still have unvisited open neighbours.
      `dist` gives each visited cell its number of steps from the start. */
  ghost predicate Inv(rows: int, cols: int, g0: Board, s: Search, dist: map<Pos, nat>,
                      level: nat, hole: set<Pos>)
  {
    ValidDims(rows, cols) && Shaped(rows, cols, g0) && MarksOk(rows, cols, g0, s) &&
    PredOk(OpenOf(g0), s.visited, dist) &&
    QueueOk(s.queue, dist, level) &&
    ExpandedOk(OpenOf(g0), s.queue, dist, level, hole) &&
    // the end leaves the queue only by stopping the search
    (EndPos(rows, cols) in s.visited ==> EndPos(rows, cols) in s.queue)
  }

  /** The breadth-first invariant between two steps. */
  ghost predicate BfsInv(rows: int, cols: int, g0: Board, s: Search, dist: map<Pos, nat>, level: nat) {
    Inv(rows, cols, g0, s, dist, level, {})
  }

  /** The search starts inside the invariant, at level 0. */
  lemma SearchInit(rows: int, cols: int, g0: Board)
    requires ValidDims(rows, cols) && Shaped(rows, cols, g0)
    ensures BfsInv(rows, cols, g0, BeginSearch(g0), map[StartPos() := 0], 0)
  {
  }

  /** What looking at neighbour `n` does to the bookkeeping (`s` and `dist` become `r`
      and `dist'`): recorded distances stay, the visited set and the queue grow by `n`
      or not at all, and `n` if open is visited at most one step beyond the level. */
  ghost predicate DiscoverFacts(open: set<Pos>, s: Search, r: Search, dist: map<Pos, nat>,
                                dist': map<Pos, nat>, level: nat, n: Pos)
  {
    (forall v | v in dist :: v in dist' && dist'[v] == dist[v]) &&
    ((r.visited.Keys == s.visited.Keys && r.queue == s.queue) ||
     (n !in s.visited && r.visited.Keys == s.visited.Keys + {n} && r.queue == s.queue + [n])) &&
    (n in open ==> n in r.visited && n in dist' && dist'[n] <= level + 1)
  }

  /** Looking at neighbour `n` of the expanded cell `p` keeps the invariant with `p` as
      the hole, and changes the bookkeeping as `DiscoverFacts` says. */
  ghost predicate Discovered(rows: int, cols: int, g0: Board, s: Search, r: Search,
                             dist: map<Pos, nat>, dist': map<Pos, nat>, level: nat, p: Pos, n: Pos)
  {
    Inv(rows, cols, g0, r, dist', level, {p}) && DiscoverFacts(OpenOf(g0), s, r, dist, dist', level, n)
  }

  /** Looking at one neighbour keeps the invariant (with the expanded cell `p` as the
      hole), grows the visited set by at most that neighbour, and leaves the neighbour
      visited at most one step beyond `p` when it is open. */
  lemma DiscoverKeeps(rows: int, cols: int, g0: Board, s: Search, dist: map<Pos, nat>,
                      level: nat, p: Pos, n: Pos) returns (dist': map<Pos, nat>)
    requires Inv(rows, cols, g0, s, dist, level, {p})
    requires p in s.visited && p !in s.queue && dist[p] == level
    requires Adjacent(p, n)
    ensures Discovered(rows, cols, g0, s, DiscoverF(rows, cols, s, p, n), dist, dist', level, p, n)
  {
    if InBounds(rows, cols, n) && n in s.board && s.board[n] != Wall && n !in s.visited {
      dist' := dist[n := level + 1];
      DiscoverNew(rows, cols, g0, s, dist, level, p, n);
    } else {
      dist' := dist;
      DiscoverNone(rows, cols, g0, s, dist, level, p, n);
    }
  }

  /** The case of `DiscoverKeeps` where the neighbour is left alone. */
  lemma DiscoverNone(rows: int, cols: int, g0: Board, s: Search, dist: map<Pos, nat>,
                     level: nat, p: Pos, n: Pos)
    requires Inv(rows, cols, g0, s, dist, level, {p})
    requires !(InBounds(rows, cols, n) && n in s.board && s.board[n] != Wall && n !in s.visited)
    ensures Discovered(rows, cols, g0, s, s, dist, dist, level, p, n)
  {
    WallsKept(rows, cols, g0, s, dist);
  }

  /** The search never turns a wall into a passable cell or the reverse. */
  lemma WallsKept(rows: int, cols: int, g0: Board, s: Search, dist: map<Pos, nat>)
    requires MarksOk(rows, cols, g0, s) && PredOk(OpenOf(g0), s.visited, dist)
    ensures forall q | q in g0 :: (s.board[q] == Wall <==> g0[q] == Wall)
  {
  }

  /** The case of `DiscoverKeeps` where the neighbour is queued. */
  lemma DiscoverNew(rows: int, cols: int, g0: Board, s: Search, dist: map<Pos, nat>,
                    level: nat, p: Pos, n: Pos)
    requires Inv(rows, cols, g0, s, dist, level, {p})
    requires p in s.visited && p !in s.queue && dist[p] == level
    requires Adjacent(p, n)
    requires InBounds(rows, cols, n) && n in s.board && s.board[n] != Wall && n !in s.visited
    ensures Discovered(rows, cols, g0, s, DiscoverF(rows, cols, s, p, n), dist, dist[n := level + 1], level, p, n)
  {
    NewKeepsInv(rows, cols, g0, s, dist, level, p, n);
    NewFacts(OpenOf(g0), s, dist, level, p, n);
  }

  lemma NewFacts(open: set<Pos>, s: Search, dist: map<Pos, nat>, level: nat, p: Pos, n: Pos)
    requires n !in s.visited && n !in dist
    ensures DiscoverFacts(open, s, Search(s.board, s.queue + [n], s.visited[n := Some(p)]),
                          dist, dist[n := level + 1], level, n)
  {
  }

  lemma NewKeepsInv(rows: int, cols: int, g0: Board, s: Search, dist: map<Pos, nat>,
                    level: nat, p: Pos, n: Pos)
    requires Inv(rows, cols, g0, s, dist, level, {p})
    requires p in s.visited && p !in s.queue && dist[p] == level
    requires Adjacent(p, n)
    requires InBounds(rows, cols, n) && n in s.board && s.board[n] != Wall && n !in s.visited
    ensures Inv(rows, cols, g0, DiscoverF(rows, cols, s, p, n), dist[n := level + 1], level, {p})
  {
    assert n in OpenOf(g0);
    MarksGrow(rows, cols, g0, s, n, p);
    PredGrows(OpenOf(g0), s.visited, dist, p, n);
    QueueGrows(s.queue, dist, level, n);
    ExpandedGrows(OpenOf(g0), s.queue, dist, level, {p}, n);
  }

  lemma QueueGrows(queue: seq<Pos>, dist: map<Pos, nat>, level: nat, n: Pos)
    requires QueueOk(queue, dist, level) && n !in dist
    ensures QueueOk(queue + [n], dist[n := level + 1], level)
  {
  }

  lemma ExpandedGrows(open: set<Pos>, queue: seq<Pos>, dist: map<Pos, nat>, level: nat,
                      hole: set<Pos>, n: Pos)
    requires ExpandedOk(open, queue, dist, level, hole) && n !in dist
    ensures ExpandedOk(open, queue + [n], dist[n := level + 1], level, hole)
  {
  }

  lemma MarksGrow(rows: int, cols: int, g0: Board, s: Search, n: Pos, p: Pos)
    requires MarksOk(rows, cols, g0, s) && n in g0 && n !in s.visited && StartPos() in s.visited
    ensures MarksOk(rows, cols, g0, Search(if n != EndPos(rows, cols) then s.board[n := Frontier] else s.board,
                                           s.queue + [n], s.visited[n := Some(p)]))
  {
    assert forall q :: q in s.queue + [n] <==> q in s.queue || q == n;
  }

  lemma PredGrows(open: set<Pos>, visited: map<Pos, Option<Pos>>, dist: map<Pos, nat>, p: Pos, n: Pos)
    requires PredOk(open, visited, dist) && p in visited && Adjacent(p, n) && n in open && n !in visited
    ensures PredOk(open, visited[n := Some(p)], dist[n := dist[p] + 1])
  {
  }

  /** The neighbours of `p` in the directions below `k` are visited at most one step
      beyond `p` whenever they are open. */
  ghost predicate Covered(open: set<Pos>, dist: map<Pos, nat>, p: Pos, level: nat, k: nat) {
    forall j | 0 <= j < k && j < 4 :: Around(p)[j] in open ==> Around(p)[j] in dist && dist[Around(p)[j]] <= level + 1
  }

  /** Looking at the neighbours in directions `k` to 3 keeps the invariant, covers all
      four directions, only adds to the visited set, and grows the queue by exactly the
      cells it adds. */
  lemma {:induction false} DiscoverFromKeeps(rows: int, cols: int, g0: Board, s: Search,
                                             dist: map<Pos, nat>, level: nat, p: Pos, k: nat)
    returns (dist': map<Pos, nat>)
    requires Inv(rows, cols, g0, s, dist, level, {p})
    requires p in s.visited && p !in s.queue && dist[p] == level
    requires k <= 4 && Covered(OpenOf(g0), dist, p, level, k)
    ensures var r := DiscoverFrom(rows, cols, s, p, k);
      Inv(rows, cols, g0, r, dist', level, {p}) &&
      Covered(OpenOf(g0), dist', p, level, 4) &&
      (forall v | v in dist :: v in dist' && dist'[v] == dist[v]) &&
      s.visited.Keys <= r.visited.Keys &&
      |r.visited.Keys| - |s.visited.Keys| == |r.queue| - |s.queue|
    decreases 4 - k
  {
    if k >= 4 {
      dist' := dist;
    } else {
      var n := Around(p)[k];
      var s1 := DiscoverF(rows, cols, s, p, n);
      var d1 := DiscoverKeeps(rows, cols, g0, s, dist, level, p, n);
      assert s1.visited.Keys == s.visited.Keys || |s1.visited.Keys| == |s.visited.Keys| + 1;
      CoveredStep(OpenOf(g0), dist, d1, p, level, k);
      dist' := DiscoverFromKeeps(rows, cols, g0, s1, d1, level, p, k + 1);
    }
  }

  lemma CoveredStep(open: set<Pos>, dist: map<Pos, nat>, dist': map<Pos, nat>, p: Pos,
                    level: nat, k: nat)
    requires k < 4 && Covered(open, dist, p, level, k)
    requires forall v | v in dist :: v in dist' && dist'[v] == dist[v]
    requires Around(p)[k] in open ==> Around(p)[k] in dist' && dist'[Around(p)[k]] <= level + 1
    ensures Covered(open, dist', p, level, k + 1)
  {
  }

  /** Dequeuing the head `p` (not the end) and marking it 'V' keeps the invariant at
      the level of `p`, with `p` as the hole until its neighbours are looked at. */
  lemma DequeueKeeps(rows: int, cols: int, g0: Board, s: Search, dist: map<Pos, nat>, level: nat)
    requires BfsInv(rows, cols, g0, s, dist, level)
    requires |s.queue| > 0 && s.queue[0] != EndPos(rows, cols)
    ensures var p := s.queue[0];
      var b := if p != StartPos() && p in s.board then s.board[p := Visited] else s.board;
      p in dist && level <= dist[p] &&
      Inv(rows, cols, g0, Search(b, s.queue[1..], s.visited), dist, dist[p], {p})
  {
    var p := s.queue[0];
    assert p in g0 by {
      assert p == StartPos() || p in OpenOf(g0);
    }
    MarksDequeue(rows, cols, g0, s);
    QueueShifts(s.queue, dist, level);
    ExpandedDequeue(OpenOf(g0), s.queue, dist, level);
  }

  lemma MarksDequeue(rows: int, cols: int, g0: Board, s: Search)
    requires MarksOk(rows, cols, g0, s) && |s.queue| > 0 && Distinct(s.queue)
    requires s.queue[0] in g0 && s.queue[0] in s.visited && s.queue[0] != EndPos(rows, cols)
    ensures var p := s.queue[0];
      var b := if p != StartPos() && p in s.board then s.board[p := Visited] else s.board;
      MarksOk(rows, cols, g0, Search(b, s.queue[1..], s.visited))
  {
    var p := s.queue[0];
    assert forall q :: q in s.queue <==> q == p || q in s.queue[1..];
    assert p !in s.queue[1..];
  }

  lemma ExpandedDequeue(open: set<Pos>, queue: seq<Pos>, dist: map<Pos, nat>, level: nat)
    requires QueueOk(queue, dist, level) && ExpandedOk(open, queue, dist, level, {}) && |queue| > 0
    ensures ExpandedOk(open, queue[1..], dist, dist[queue[0]], {queue[0]})
  {
    var p := queue[0];
    assert forall q :: q in queue <==> q == p || q in queue[1..];
  }

  lemma QueueShifts(queue: seq<Pos>, dist: map<Pos, nat>, level: nat)
    requires QueueOk(queue, dist, level) && |queue| > 0
    ensures level <= dist[queue[0]] && QueueOk(queue[1..], dist, dist[queue[0]])
  {
  }

  /** Once all four neighbours of `p` are covered, `p` leaves the hole. */
  lemma HoleCloses(open: set<Pos>, queue: seq<Pos>, dist: map<Pos, nat>, level: nat, p: Pos)
    requires ExpandedOk(open, queue, dist, level, {p}) && p in dist && dist[p] == level
    requires Covered(open, dist, p, level, 4)
    ensures ExpandedOk(open, queue, dist, level, {})
  {
    forall n | Adjacent(p, n) && n in open
      ensures n in dist && dist[n] <= dist[p] + 1
    {
      assert n in Around(p);
      var j :| 0 <= j < 4 && Around(p)[j] == n;
    }
  }

  /** The in-bounds cells the search has not visited yet. */
  ghost function Unvisited(rows: int, cols: int, s: Search): set<Pos> {
    Cells(rows, cols) - s.visited.Keys
  }

  /** A step that neither finds the end nor runs out of cells expands the head of the
      queue and keeps the invariant; it visits a new cell or shortens the queue. */
  lemma SolveStepKeeps(rows: int, cols: int, g0: Board, s: Search, dist: map<Pos, nat>, level: nat)
    returns (dist': map<Pos, nat>, level': nat)
    requires BfsInv(rows, cols, g0, s, dist, level)
    requires |s.queue| > 0 && s.queue[0] != EndPos(rows, cols)
    ensures var r := SolveStepF(rows, cols, s);
      r.1 == Continue && BfsInv(rows, cols, g0, r.0, dist', level') &&
      level <= level' &&
      (forall v | v in dist :: v in dist' && dist'[v] == dist[v]) &&
      (Unvisited(rows, cols, r.0) < Unvisited(rows, cols, s) ||
       (Unvisited(rows, cols, r.0) == Unvisited(rows, cols, s) && |r.0.queue| < |s.queue|))
  {
    var p := s.queue[0];
    var b := if p != StartPos() && p in s.board then s.board[p := Visited] else s.board;
    var s1 := Search(b, s.queue[1..], s.visited);
    DequeueKeeps(rows, cols, g0, s, dist, level);
    level' := dist[p];
    dist' := DiscoverFromKeeps(rows, cols, g0, s1, dist, level', p, 0);
    var r := DiscoverFrom(rows, cols, s1, p, 0);
    assert SolveStepF(rows, cols, s) == (r, Continue);
    HoleCloses(OpenOf(g0), r.queue, dist', level', p);
    VisitedInBounds(rows, cols, g0, r, dist', level');
    Progress(Cells(rows, cols), s.visited.Keys, r.visited.Keys, |s.queue|, |r.queue|);
  }

  lemma Progress(all: set<Pos>, v: set<Pos>, v': set<Pos>, q: nat, q': nat)
    requires v <= v' <= all && |v'| - |v| == q' - (q - 1)
    ensures all - v' < all - v || (all - v' == all - v && q' < q)
  {
    if v' != v {
      LeftShrinks(all, v, v');
    }
  }

  /** Every visited cell is in bounds. */
  lemma VisitedInBounds(rows: int, cols: int, g0: Board, s: Search, dist: map<Pos, nat>, level: nat)
    requires BfsInv(rows, cols, g0, s, dist, level)
    ensures s.visited.Keys <= Cells(rows, cols)
  {
  }

  /** Between steps, every route from the start that is short enough to lie below the
      level, or any route at all once the queue is empty, runs through visited cells
      whose recorded distance is at most their position on the route. */
  lemma {:induction false} RouteVisited(open: set<Pos>, queue: seq<Pos>, dist: map<Pos, nat>,
                                        level: nat, w: seq<Pos>)
    requires QueueOk(queue, dist, level) && ExpandedOk(open, queue, dist, level, {})
    requires StartPos() in dist && dist[StartPos()] == 0 && IsRoute(w, StartPos(), open)
    requires |w| - 1 <= level || |queue| == 0
    ensures forall k | 0 <= k < |w| :: w[k] in dist && dist[w[k]] <= k
  {
    if |w| > 1 {
      var w' := w[..|w| - 1];
      RouteVisited(open, queue, dist, level, w');
      var u := w[|w| - 2];
      assert u == w'[|w| - 2];
      StepVisited(open, queue, dist, level, u, w[|w| - 1], |w| - 2);
      assert forall k | 0 <= k < |w| - 1 :: w[k] == w'[k];
    }
  }

  /** One step of `RouteVisited`: an open neighbour of a visited cell `u` of recorded
      distance at most `k` below the level (or with nothing queued) is visited within
      `k + 1`. */
  lemma StepVisited(open: set<Pos>, queue: seq<Pos>, dist: map<Pos, nat>, level: nat,
                    u: Pos, n: Pos, k: nat)
    requires QueueOk(queue, dist, level) && ExpandedOk(open, queue, dist, level, {})
    requires u in dist && dist[u] <= k && (k < level || |queue| == 0)
    requires Adjacent(u, n) && n in open
    ensures n in dist && dist[n] <= k + 1
  {
    QueueAtLevel(queue, dist, level);
  }

  /** Queued cells lie at the level or beyond. */
  lemma QueueAtLevel(queue: seq<Pos>, dist: map<Pos, nat>, level: nat)
    requires QueueOk(queue, dist, level)
    ensures forall u | u in queue :: u in dist && level <= dist[u]
  {
    forall u | u in queue
      ensures u in dist && level <= dist[u]
    {
      var i :| 0 <= i < |queue| && queue[i] == u;
    }
  }

  /** When the end reaches the head of the queue, no route from the start to the end is
      shorter than its recorded distance. */
  lemma FoundShortest(rows: int, cols: int, g0: Board, s: Search, dist: map<Pos, nat>,
                      level: nat, w: seq<Pos>)
    requires BfsInv(rows, cols, g0, s, dist, level)
    requires |s.queue| > 0 && s.queue[0] == EndPos(rows, cols)
    requires IsRoute(w, StartPos(), OpenOf(g0)) && Last(w) == EndPos(rows, cols)
    ensures EndPos(rows, cols) in dist && dist[EndPos(rows, cols)] <= |w| - 1
  {
    var e := EndPos(rows, cols);
    assert dist[e] <= level + 1;
    if |w| - 1 <= level {
      RouteVisited(OpenOf(g0), s.queue, dist, level, w);
      assert w[|w| - 1] == e;
    }
  }

  /** When the queue runs out, the end was never visited and no route from the start
      reaches it. */
  lemma ExhaustedNoRoute(rows: int, cols: int, g0: Board, s: Search, dist: map<Pos, nat>, level: nat)
    requires BfsInv(rows, cols, g0, s, dist, level) && |s.queue| == 0
    ensures EndPos(rows, cols) !in s.visited
    ensures !Reachable(OpenOf(g0), StartPos(), EndPos(rows, cols))
  {
    forall w | IsRoute(w, StartPos(), OpenOf(g0))
      ensures Last(w) != EndPos(rows, cols)
    {
      RouteVisited(OpenOf(g0), s.queue, dist, level, w);
      assert w[|w| - 1] in dist;
    }
  }

  /** `w` is a route from the start to `to` through `open` and none is shorter. */
  ghost predicate ShortestRoute(open: set<Pos>, w: seq<Pos>, to: Pos) {
    IsRoute(w, StartPos(), open) && Last(w) == to &&
    forall w' | IsRoute(w', StartPos(), open) && Last(w') == to :: |w| <= |w'|
  }

  /** When the end reaches the head of the queue it has a predecessor chain, and its
      recorded distance is at most the length of every route to it. */
  lemma FoundAll(rows: int, cols: int, g0: Board, s: Search, dist: map<Pos, nat>, level: nat)
    requires BfsInv(rows, cols, g0, s, dist, level)
    requires |s.queue| > 0 && s.queue[0] == EndPos(rows, cols)
    ensures EndPos(rows, cols) in s.visited && PredOk(OpenOf(g0), s.visited, dist)
    ensures EndPos(rows, cols) in dist
    ensures forall w | IsRoute(w, StartPos(), OpenOf(g0)) && Last(w) == EndPos(rows, cols) ::
      dist[EndPos(rows, cols)] <= |w| - 1
  {
    forall w | IsRoute(w, StartPos(), OpenOf(g0)) && Last(w) == EndPos(rows, cols)
      ensures dist[EndPos(rows, cols)] <= |w| - 1
    {
      FoundShortest(rows, cols, g0, s, dist, level, w);
    }
  }

  /** The predecessor chain of the end, as long as its recorded distance, is a shortest
      route to the end. */
  lemma ChainShortest(open: set<Pos>, dist: map<Pos, nat>, e: Pos, path: seq<Pos>)
    requires e in dist
    requires forall w | IsRoute(w, StartPos(), open) && Last(w) == e :: dist[e] <= |w| - 1
    requires IsRoute([StartPos()] + path, StartPos(), open) && Last([StartPos()] + path) == e
    requires |path| == dist[e]
    ensures ShortestRoute(open, [StartPos()] + path, e) && Reachable(open, StartPos(), e)
  {
  }

  /** What a search leaves on the reset grid `g0`, `path` being the cells marked '.':
      the same cells, the walls exactly where they were, every path cell '.', and every
      other cell either as in `g0` or, apart from the start and the end, 'V' or 'F'. */
  ghost predicate SearchLeaves(rows: int, cols: int, g0: Board, g: Board, path: seq<Pos>) {
    g.Keys == g0.Keys &&
    (forall k | 0 <= k < |path| :: path[k] in g && g[path[k]] == Solution) &&
    forall q | q in g0 ::
      (g[q] == Wall <==> g0[q] == Wall) &&
      (q !in path ==> g[q] == g0[q] ||
                      (q != StartPos() && q != EndPos(rows, cols) && (g[q] == Visited || g[q] == Frontier)))
  }

  /** During a search the grid holds only the marks 'V' and 'F' on top of `g0`. */
  lemma MarksOnly(rows: int, cols: int, g0: Board, s: Search, dist: map<Pos, nat>, level: nat)
    requires BfsInv(rows, cols, g0, s, dist, level)
    ensures SearchLeaves(rows, cols, g0, s.board, [])
  {
    WallsKept(rows, cols, g0, s, dist);
  }

  /** Following predecessors from a visited cell back to the start gives a route of
      exactly its recorded distance: each cell of `w` after the first has the cell
      before it as its predecessor. */
  lemma {:induction false} PredRoute(open: set<Pos>, visited: map<Pos, Option<Pos>>,
                                     dist: map<Pos, nat>, v: Pos) returns (w: seq<Pos>)
    requires PredOk(open, visited, dist) && v in visited
    ensures IsRoute(w, StartPos(), open) && Last(w) == v && |w| == dist[v] + 1
    ensures forall k | 1 <= k < |w| :: w[k] in visited && visited[w[k]] == Some(w[k - 1])
    decreases dist[v]
  {
    if v == StartPos() {
      w := [v];
    } else {
      var u := visited[v].value;
      var w' := PredRoute(open, visited, dist, u);
      w := w' + [v];
      assert forall k | 0 <= k < |w'| :: w[k] == w'[k];
      forall k | 1 <= k < |w|
        ensures w[k] in visited && visited[w[k]] == Some(w[k - 1])
      {
        if k < |w'| {
          assert w[k] == w'[k] && w[k - 1] == w'[k - 1];
        } else {
          assert w[k] == v && w[k - 1] == Last(w') == u;
        }
      }
    }
  }

  lemma DiscoverSteps(rows: int, cols: int, s0: Search, p: Pos, s1: Search, s2: Search, s3: Search, s4: Search)
    requires s1 == DiscoverF(rows, cols, s0, p, Around(p)[0])
    requires s2 == DiscoverF(rows, cols, s1, p, Around(p)[1])
    requires s3 == DiscoverF(rows, cols, s2, p, Around(p)[2])
    requires s4 == DiscoverF(rows, cols, s3, p, Around(p)[3])
    ensures s4 == DiscoverFrom(rows, cols, s0, p, 0)
  {
    assert DiscoverFrom(rows, cols, s3, p, 3) == s4;
    assert DiscoverFrom(rows, cols, s2, p, 2) == s4;
    assert DiscoverFrom(rows, cols, s1, p, 1) == s4;
  }

  /** Clears the marks of a previous search: every cell other than '#', 'S' and 'E'
      becomes 'P'. */
  method ResetMarks(m: array2<Cell>)
    modifies m
    ensures Snap(m) == ResetF(old(Snap(m)))
  {
    for i := 0 to m.Length0
      invariant forall a, b :: 0 <= a < i && 0 <= b < m.Length1 ==> m[a, b] == Cleared(old(m[a, b]))
      invariant forall a, b :: i <= a < m.Length0 && 0 <= b < m.Length1 ==> m[a, b] == old(m[a, b])
    {
      for j := 0 to m.Length1
        invariant forall a, b :: 0 <= a < i && 0 <= b < m.Length1 ==> m[a, b] == Cleared(old(m[a, b]))
        invariant forall a, b :: i < a < m.Length0 && 0 <= b < m.Length1 ==> m[a, b] == old(m[a, b])
        invariant forall b :: 0 <= b < j ==> m[i, b] == Cleared(old(m[i, b]))
        invariant forall b :: j <= b < m.Length1 ==> m[i, b] == old(m[i, b])
      {
        if m[i, j] != Wall && m[i, j] != Start && m[i, j] != End {
          m[i, j] := Path;
        }
      }
    }
    ghost var g := old(Snap(m));
    assert forall p | p in g :: g[p] == old(m[p.0, p.1]);
    SnapIs(m, ResetF(g));
  }

  /** Looks at the neighbour of `p` in direction `k` on the grid: an in-bounds,
      non-wall, unvisited cell is queued, gets `p` as predecessor and, unless it is the
      end, is marked 'F'. */
  method DiscoverAt(m: array2<Cell>, p: Pos, k: nat, queue: seq<Pos>, visited: map<Pos, Option<Pos>>)
    returns (queue': seq<Pos>, visited': map<Pos, Option<Pos>>)
    requires k < 4
    modifies m
    ensures Search(Snap(m), queue', visited') ==
      DiscoverF(m.Length0, m.Length1, Search(old(Snap(m)), queue, visited), p, Around(p)[k])
  {
    queue', visited' := queue, visited;
    var n := Around(p)[k];
    if 0 <= n.0 < m.Length0 && 0 <= n.1 < m.Length1 && m[n.0, n.1] != Wall && n !in visited {
      queue' := queue + [n];
      visited' := visited[n := Some(p)];
      if n != EndPos(m.Length0, m.Length1) {
        Put(m, n, Frontier);
      }
    }
  }

  /** Expands the dequeued cell `p`: marks it 'V' unless it is the start, then looks at
      its neighbours up, down, left and right. */
  method Expand(m: array2<Cell>, p: Pos, queue: seq<Pos>, visited: map<Pos, Option<Pos>>)
    returns (queue': seq<Pos>, visited': map<Pos, Option<Pos>>)
    modifies m
    ensures Search(Snap(m), queue', visited') ==
      ExpandF(m.Length0, m.Length1, Search(old(Snap(m)), queue, visited), p)
  {
    if p != StartPos() && 0 <= p.0 < m.Length0 && 0 <= p.1 < m.Length1 {
      Put(m, p, Visited);
    }
    ghost var s0 := Search(Snap(m), queue, visited);
    var q1, v1 := DiscoverAt(m, p, 0, queue, visited);
    ghost var s1 := Search(Snap(m), q1, v1);
    var q2, v2 := DiscoverAt(m, p, 1, q1, v1);
    ghost var s2 := Search(Snap(m), q2, v2);
    var q3, v3 := DiscoverAt(m, p, 2, q2, v2);
    ghost var s3 := Search(Snap(m), q3, v3);
    queue', visited' := DiscoverAt(m, p, 3, q3, v3);
    DiscoverSteps(m.Length0, m.Length1, s0, p, s1, s2, s3, Search(Snap(m), queue', visited'));
  }

  /** Dequeues the head `p` of the queue, which is not the end, and expands it on the
      grid: the step of the search that reports Continue. The search invariant is kept,
      with new distances that agree with the old ones, and a new cell is visited or
      the queue gets shorter. */
  method ExpandStep(m: array2<Cell>, queue: seq<Pos>, visited: map<Pos, Option<Pos>>,
                    ghost g0: Board, ghost dist: map<Pos, nat>, ghost level: nat)
    returns (queue': seq<Pos>, visited': map<Pos, Option<Pos>>, ghost dist': map<Pos, nat>, ghost level': nat)
    requires BfsInv(m.Length0, m.Length1, g0, Search(Snap(m), queue, visited), dist, level)
    requires |queue| > 0 && queue[0] != EndPos(m.Length0, m.Length1)
    modifies m
    ensures (Search(Snap(m), queue', visited'), Continue) ==
      SolveStepF(m.Length0, m.Length1, Search(old(Snap(m)), queue, visited))
    ensures BfsInv(m.Length0, m.Length1, g0, Search(Snap(m), queue', visited'), dist', level')
    ensures level <= level' && forall v | v in dist :: v in dist' && dist'[v] == dist[v]
    ensures Unvisited(m.Length0, m.Length1, Search(Snap(m), queue', visited')) <
              Unvisited(m.Length0, m.Length1, Search(old(Snap(m)), queue, visited)) ||
            (Unvisited(m.Length0, m.Length1, Search(Snap(m), queue', visited')) ==
               Unvisited(m.Length0, m.Length1, Search(old(Snap(m)), queue, visited)) &&
             |queue'| < |queue|)
  {
    ghost var s := Search(Snap(m), queue, visited);
    dist', level' := SolveStepKeeps(m.Length0, m.Length1, g0, s, dist, level);
    queue', visited' := Expand(m, queue[0], queue[1..], visited);
  }

  /** Runs the search on the grid to completion: dequeues cells until the end comes
      out of the queue or the queue runs dry, expanding every other cell dequeued.
      Returns the predecessor map. If the end was reached its recorded distance bounds
      every route to it; otherwise no route reaches it. */
  method SearchAll(m: array2<Cell>) returns (visited: map<Pos, Option<Pos>>, ghost dist: map<Pos, nat>)
    requires ValidDims(m.Length0, m.Length1)
    modifies m
    ensures var g0 := old(Snap(m)); var e := EndPos(m.Length0, m.Length1);
      SearchLeaves(m.Length0, m.Length1, g0, Snap(m), []) &&
      PredOk(OpenOf(g0), visited, dist) &&
      (e in visited ==>
         e in dist && forall w | IsRoute(w, StartPos(), OpenOf(g0)) && Last(w) == e :: dist[e] <= |w| - 1) &&
      (e !in visited ==> !Reachable(OpenOf(g0), StartPos(), e))
  {
    var rows, cols := m.Length0, m.Length1;
    ghost var g0 := Snap(m);
    var queue: seq<Pos> := [StartPos()];
    visited := map[StartPos() := None];
    SearchInit(rows, cols, g0);
    dist := map[StartPos() := 0];
    ghost var level: nat := 0;
    ghost var reached := false;
    while |queue| > 0
      invariant BfsInv(rows, cols, g0, Search(Snap(m), queue, visited), dist, level)
      decreases Unvisited(rows, cols, Search(Snap(m), queue, visited)), |queue|
    {
      ghost var s := Search(Snap(m), queue, visited);
      if queue[0] == EndPos(rows, cols) {
        FoundAll(rows, cols, g0, s, dist, level);
        MarksOnly(rows, cols, g0, s, dist, level);
        queue := queue[1..];
        reached := true;
        break;
      }
      queue, visited, dist, level := ExpandStep(m, queue, visited, g0, dist, level);
    }
    if !reached {
      ExhaustedNoRoute(rows, cols, g0, Search(Snap(m), queue, visited), dist, level);
      MarksOnly(rows, cols, g0, Search(Snap(m), queue, visited), dist, level);
    }
  }

  /** `s` back to front. */
  function Reversed(s: seq<Pos>): (r: seq<Pos>)
    ensures |r| == |s| && forall k | 0 <= k < |s| :: r[k] == s[|s| - 1 - k]
  {
    if |s| == 0 then [] else [s[|s| - 1]] + Reversed(s[..|s| - 1])
  }

  /** The predecessor walk so far: `rev` holds the cells passed, from `target` back
      towards the start, each open and at one step less than the one before, and `pos`
      is the visited cell reached next. */
  ghost predicate BackWalk(visited: map<Pos, Option<Pos>>, open: set<Pos>, dist: map<Pos, nat>,
                           target: Pos, rev: seq<Pos>, pos: Pos)
  {
    pos in visited && pos in dist && target in dist && |rev| + dist[pos] == dist[target] &&
    (forall k | 0 <= k < |rev| :: rev[k] in open && rev[k] in dist && dist[rev[k]] == dist[target] - k) &&
    (forall k | 0 <= k < |rev| - 1 :: Adjacent(rev[k + 1], rev[k])) &&
    (forall k | 0 <= k < |rev| - 1 :: rev[k] in visited && visited[rev[k]] == Some(rev[k + 1])) &&
    (if |rev| == 0 then pos == target
     else rev[0] == target && Adjacent(pos, rev[|rev| - 1]) &&
          rev[|rev| - 1] in visited && visited[rev[|rev| - 1]] == Some(pos))
  }

  lemma BackWalkStep(open: set<Pos>, visited: map<Pos, Option<Pos>>, dist: map<Pos, nat>,
                     target: Pos, rev: seq<Pos>, pos: Pos)
    requires PredOk(open, visited, dist) && BackWalk(visited, open, dist, target, rev, pos)
    requires pos != StartPos()
    ensures visited[pos].Some? && dist[visited[pos].value] < dist[pos]
    ensures BackWalk(visited, open, dist, target, rev + [pos], visited[pos].value)
  {
  }

  lemma BackWalkDone(open: set<Pos>, visited: map<Pos, Option<Pos>>, dist: map<Pos, nat>,
                     target: Pos, rev: seq<Pos>)
    requires PredOk(open, visited, dist) && BackWalk(visited, open, dist, target, rev, StartPos())
    ensures var path := Reversed(rev);
      |path| == dist[target] &&
      (forall k | 0 <= k < |path| :: path[k] in dist && dist[path[k]] == k + 1) &&
      IsRoute([StartPos()] + path, StartPos(), open) && Last([StartPos()] + path) == target &&
      forall k | 0 <= k < |path| ::
        path[k] in visited && visited[path[k]] == Some(if k == 0 then StartPos() else path[k - 1])
  {
    var w := [StartPos()] + Reversed(rev);
    assert forall k | 1 <= k < |w| :: w[k] == rev[|rev| - k];
  }

  /** Follows predecessors from the visited cell `target` back to the start and returns
      the cells passed, start excluded, in order from the start: a route of exactly the
      recorded distance of `target`, the k-th cell at distance k + 1, each cell's
      recorded predecessor being the cell before it. */
  method Reconstruct(visited: map<Pos, Option<Pos>>, target: Pos, ghost dist: map<Pos, nat>,
                     ghost open: set<Pos>) returns (path: seq<Pos>)
    requires PredOk(open, visited, dist) && target in visited
    ensures |path| == dist[target]
    ensures forall k | 0 <= k < |path| :: path[k] in dist && dist[path[k]] == k + 1
    ensures IsRoute([StartPos()] + path, StartPos(), open)
    ensures Last([StartPos()] + path) == target
    ensures forall k | 0 <= k < |path| ::
      path[k] in visited && visited[path[k]] == Some(if k == 0 then StartPos() else path[k - 1])
  {
    var rev: seq<Pos> := [];
    var pos := target;
    while pos != StartPos()
      invariant BackWalk(visited, open, dist, target, rev, pos)
      decreases dist[pos]
    {
      BackWalkStep(open, visited, dist, target, rev, pos);
      rev := rev + [pos];
      pos := visited[pos].value;
    }
    BackWalkDone(open, visited, dist, target, rev);
    path := Reversed(rev);
  }

  /** The board with every cell of `path` marked '.' and nothing else changed. */
  ghost function MarkedF(g: Board, path: seq<Pos>): (r: Board)
    ensures r.Keys == g.Keys
    ensures forall k | 0 <= k < |path| && path[k] in g :: r[path[k]] == Solution
    ensures forall p | p in g && p !in path :: r[p] == g[p]
  {
    map p | p in g :: if p in path then Solution else g[p]
  }

  /** Marking one more cell of the path. */
  lemma MarkedNext(g: Board, path: seq<Pos>, k: nat)
    requires k < |path| && path[k] in g
    ensures MarkedF(g, path[..k])[path[k] := Solution] == MarkedF(g, path[..k + 1])
  {
    assert forall q :: q in path[..k + 1] <==> q in path[..k] || q == path[k];
  }

  /** Marking a route of open cells over what a search left keeps the description of
      what a search leaves, now with the route marked. */
  lemma MarkLeaves(rows: int, cols: int, g0: Board, g: Board, path: seq<Pos>)
    requires SearchLeaves(rows, cols, g0, g, [])
    requires forall k | 0 <= k < |path| :: path[k] in OpenOf(g0)
    ensures SearchLeaves(rows, cols, g0, MarkedF(g, path), path)
  {
  }

  /** Marks every cell of `path`, in order, with '.'. */
  method MarkPath(m: array2<Cell>, path: seq<Pos>)
    requires forall k | 0 <= k < |path| :: InBounds(m.Length0, m.Length1, path[k])
    modifies m
    ensures Snap(m) == MarkedF(old(Snap(m)), path)
  {
    ghost var g := Snap(m);
    for k := 0 to |path|
      invariant Snap(m) == MarkedF(g, path[..k])
    {
      MarkedNext(g, path, k);
      Put(m, path[k], Solution);
    }
    assert path[..|path|] == path;
  }
}
