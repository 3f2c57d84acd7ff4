/** The randomised Prim (growing-tree) generator shared by both copies of the engine.
    The grid starts as walls; rooms (cells with two odd coordinates) are joined one at
    a time to an already carved room two steps away by carving the cell between them.

    The steps are first defined on board values (the `...F` functions) and their
    invariants proved as lemmas; the array-updating methods at the end of the module
    are proved to compute exactly those functions. */
module Prims {
  import opened Grid

  /** Generator state: the grid and the frontier list. */
  datatype Gen = Gen(board: Board, frontier: seq<Pos>)

  /** `q` is one of the four cells two steps from `p` that the generator looks at,
      under the source's bounds checks (`i >= 2`, `i < rows - 2`, `j >= 2`, `j < cols - 2`). */
  predicate TwoAway(rows: int, cols: int, p: Pos, q: Pos) {
    (p.0 >= 2 && q == (p.0 - 2, p.1)) || (p.0 < rows - 2 && q == (p.0 + 2, p.1)) ||
    (p.1 >= 2 && q == (p.0, p.1 - 2)) || (p.1 < cols - 2 && q == (p.0, p.1 + 2))
  }

  /** The cell halfway between `p` and a cell `q` two steps away. */
  function Mid(p: Pos, q: Pos): Pos {
    (p.0 + (q.0 - p.0) / 2, p.1 + (q.1 - p.1) / 2)
  }

  lemma TwoAwayRoom(rows: int, cols: int, p: Pos, q: Pos)
    requires ValidDims(rows, cols) && Room(rows, cols, p) && TwoAway(rows, cols, p, q)
    ensures Room(rows, cols, q) && TwoAway(rows, cols, q, p)
    ensures Interior(rows, cols, Mid(p, q)) && Adjacent(p, Mid(p, q)) && Adjacent(Mid(p, q), q)
    ensures !Room(rows, cols, Mid(p, q)) && Mid(p, q) != p && Mid(p, q) != q
  {
  }

  /** Some carved cell lies two steps away from `p`. */
  ghost predicate HasPathNeighbor(rows: int, cols: int, g: Board, p: Pos)
    requires Shaped(rows, cols, g) && InBounds(rows, cols, p)
  {
    (p.0 >= 2 && g[(p.0 - 2, p.1)] == Path) || (p.0 < rows - 2 && g[(p.0 + 2, p.1)] == Path) ||
    (p.1 >= 2 && g[(p.0, p.1 - 2)] == Path) || (p.1 < cols - 2 && g[(p.0, p.1 + 2)] == Path)
  }

  /** The four cells two steps from `x`, in the order the source visits them:
      up, down, left, right. */
  function Dir(x: Pos, k: int): Pos {
    if k == 0 then (x.0 - 2, x.1)
    else if k == 1 then (x.0 + 2, x.1)
    else if k == 2 then (x.0, x.1 - 2)
    else (x.0, x.1 + 2)
  }

  /** The bounds check guarding direction `k`. */
  predicate DirOk(rows: int, cols: int, x: Pos, k: int) {
    if k == 0 then x.0 >= 2
    else if k == 1 then x.0 < rows - 2
    else if k == 2 then x.1 >= 2
    else x.1 < cols - 2
  }

  /** `ns` with `n` appended when `c` holds. */
  function PushIf(ns: seq<Pos>, c: bool, n: Pos): (r: seq<Pos>)
    ensures forall q :: q in r <==> q in ns || (c && q == n)
  {
    if c then ns + [n] else ns
  }

  /** The carve candidates of a frontier cell: the carved cells two steps away, in the
      order up, down, left, right. */
  function PathNeighbors(rows: int, cols: int, g: Board, p: Pos): (r: seq<Pos>)
    requires Shaped(rows, cols, g) && InBounds(rows, cols, p)
    ensures |r| > 0 <==> HasPathNeighbor(rows, cols, g, p)
    ensures forall q :: q in r <==> TwoAway(rows, cols, p, q) && q in g && g[q] == Path
  {
    var up := PushIf([], DirOk(rows, cols, p, 0) && g[Dir(p, 0)] == Path, Dir(p, 0));
    var down := PushIf(up, DirOk(rows, cols, p, 1) && g[Dir(p, 1)] == Path, Dir(p, 1));
    var left := PushIf(down, DirOk(rows, cols, p, 2) && g[Dir(p, 2)] == Path, Dir(p, 2));
    PushIf(left, DirOk(rows, cols, p, 3) && g[Dir(p, 3)] == Path, Dir(p, 3))
  }

  /** One direction of adding frontier cells: a wall cell not yet listed is appended to
      the frontier and marked 'F'; anything else is left alone. */
  function EnlistF(s: Gen, n: Pos): (r: Gen)
    ensures r.board.Keys == s.board.Keys
  {
    if n in s.board && s.board[n] == Wall && n !in s.frontier then Gen(s.board[n := Frontier], s.frontier + [n])
    else s
  }

  /** Enlists `n` when `c` holds (the bounds check of one direction). */
  function EnlistIf(c: bool, s: Gen, n: Pos): (r: Gen)
    ensures r.board.Keys == s.board.Keys
  {
    if c then EnlistF(s, n) else s
  }

  /** Enlisting the cells of directions `k`, ..., 3 in turn. */
  function AddFrontierFrom(rows: int, cols: int, s: Gen, x: Pos, k: nat): (r: Gen)
    ensures r.board.Keys == s.board.Keys
    decreases 4 - k
  {
    if k >= 4 then s
    else AddFrontierFrom(rows, cols, EnlistIf(DirOk(rows, cols, x, k), s, Dir(x, k)), x, k + 1)
  }

  /** Adding the frontier cells around `x`: up, down, left, right, each under its
      bounds check. */
  function AddFrontierF(rows: int, cols: int, s: Gen, x: Pos): (r: Gen)
    ensures r.board.Keys == s.board.Keys
  {
    AddFrontierFrom(rows, cols, s, x, 0)
  }

  /** The body of a generation step once the frontier cell `x` has been taken out of
      the list: when some carved cell lies two steps away, the `choice`-th one (modulo
      their number) is joined to `x` by carving `x` and the cell between them, and the
      wall cells around `x` join the frontier. With no candidate nothing changes. */
  function CarveF(rows: int, cols: int, s: Gen, x: Pos, choice: nat): (r: Gen)
    requires ValidDims(rows, cols) && Shaped(rows, cols, s.board) && Room(rows, cols, x)
    ensures Shaped(rows, cols, r.board)
  {
    var nbrs := PathNeighbors(rows, cols, s.board, x);
    if |nbrs| == 0 then s
    else
      var n := nbrs[Pick(|nbrs|, choice)];
      TwoAwayRoom(rows, cols, x, n);
      AddFrontierF(rows, cols, Gen(s.board[x := Path][Mid(x, n) := Path], s.frontier), x)
  }

  /** The list with its `k`-th entry spliced out. */
  function RemoveAt(s: seq<Pos>, k: nat): (r: seq<Pos>)
    requires k < |s|
    ensures |r| == |s| - 1
  {
    s[..k] + s[k + 1..]
  }

  /** Stamps 'S' on the start and then 'E' on the end. */
  function StampF(rows: int, cols: int, g: Board): (r: Board)
    requires ValidDims(rows, cols) && Shaped(rows, cols, g)
    ensures Shaped(rows, cols, r)
    ensures r[EndPos(rows, cols)] == End
    ensures StartPos() != EndPos(rows, cols) ==> r[StartPos()] == Start
    ensures forall p | p in g && p != StartPos() && p != EndPos(rows, cols) :: r[p] == g[p]
  {
    g[StartPos() := Start][EndPos(rows, cols) := End]
  }

  /** Start of generation: on an all-wall grid carve (1,1) and list its frontier cells. */
  function BeginF(rows: int, cols: int): (r: Gen)
    requires ValidDims(rows, cols)
    ensures Shaped(rows, cols, r.board)
  {
    AddFrontierF(rows, cols, Gen(AllWallBoard(rows, cols)[StartPos() := Path], []), StartPos())
  }

  /** One call of the resumable generation step. With an empty frontier it stamps the
      start and end and reports Done; otherwise it removes the frontier entry at
      `r1` modulo the list's length, carves it towards candidate `r2` and reports
      Continue. */
  function StepF(rows: int, cols: int, s: Gen, r1: nat, r2: nat): (r: (Gen, StepResult))
    requires ValidDims(rows, cols) && Shaped(rows, cols, s.board)
    requires forall k :: 0 <= k < |s.frontier| ==> Room(rows, cols, s.frontier[k])
    ensures Shaped(rows, cols, r.0.board)
    ensures r.1 == Done || r.1 == Continue
    ensures r.1 == Done <==> |s.frontier| == 0
    ensures r.1 == Done ==> r.0.frontier == []
  {
    if |s.frontier| == 0 then (Gen(StampF(rows, cols, s.board), s.frontier), Done)
    else
      var k := Pick(|s.frontier|, r1);
      (CarveF(rows, cols, Gen(s.board, RemoveAt(s.frontier, k)), s.frontier[k], r2), Continue)
  }

  /** A spanning-tree witness: every carved cell other than the root has an adjacent
      parent that is carved and strictly closer to the root. */
  ghost predicate Tree(depth: map<Pos, nat>, parent: map<Pos, Pos>, root: Pos) {
    root in depth && parent.Keys == depth.Keys - {root} &&
    forall c :: c in parent ==>
      parent[c] in depth && Adjacent(c, parent[c]) && depth[parent[c]] < depth[c]
  }

  /** Every cell two steps from `p` is carved or on the frontier. */
  ghost predicate Settled(rows: int, cols: int, g: Board, p: Pos)
    requires Shaped(rows, cols, g) && InBounds(rows, cols, p)
  {
    (p.0 >= 2 ==> g[(p.0 - 2, p.1)] in {Path, Frontier}) &&
    (p.0 < rows - 2 ==> g[(p.0 + 2, p.1)] in {Path, Frontier}) &&
    (p.1 >= 2 ==> g[(p.0, p.1 - 2)] in {Path, Frontier}) &&
    (p.1 < cols - 2 ==> g[(p.0, p.1 + 2)] in {Path, Frontier})
  }

  /** The generator's invariant, except that cells in `unlisted` may read 'F' without
      being listed and carved rooms in `unsettled` may still have wall cells two steps
      away. `depth` and `parent` witness that the carved cells form a tree around (1,1). */
  ghost predicate Inv(rows: int, cols: int, s: Gen, depth: map<Pos, nat>, parent: map<Pos, Pos>,
                      unlisted: set<Pos>, unsettled: set<Pos>)
  {
    ValidDims(rows, cols) && Shaped(rows, cols, s.board) &&
    // only '#', 'P' and 'F'; carved cells interior; 'F' cells are listed rooms
    (forall p {:trigger p in s.board} :: p in s.board ==>
      (s.board[p] == Wall || s.board[p] == Path || s.board[p] == Frontier) &&
      (s.board[p] != Wall ==> Interior(rows, cols, p)) &&
      (s.board[p] == Frontier ==> Room(rows, cols, p) && (p in s.frontier || p in unlisted))) &&
    // no duplicates; each listed cell reads 'F' and has a carved cell two steps away
    Distinct(s.frontier) &&
    (forall k :: 0 <= k < |s.frontier| ==>
      Room(rows, cols, s.frontier[k]) && s.board[s.frontier[k]] == Frontier &&
      HasPathNeighbor(rows, cols, s.board, s.frontier[k])) &&
    // the carved cells are the tree's nodes
    Tree(depth, parent, StartPos()) &&
    (forall p {:trigger p in depth} {:trigger p in s.board} ::
      p in depth <==> p in s.board && s.board[p] == Path) &&
    // every carved room is settled
    (forall p {:trigger Settled(rows, cols, s.board, p)} ::
      p in s.board && Room(rows, cols, p) && s.board[p] == Path && p !in unsettled ==>
      Settled(rows, cols, s.board, p))
  }

  /** The generator's invariant between two steps. */
  ghost predicate GenInv(rows: int, cols: int, s: Gen, depth: map<Pos, nat>, parent: map<Pos, Pos>) {
    Inv(rows, cols, s, depth, parent, {}, {})
  }

  /** Enlisting a cell two steps from the carved room `x` keeps the invariant: the
      cell ends up carved or on the frontier, and no non-wall cell changes. */
  lemma EnlistKeeps(rows: int, cols: int, s: Gen, depth: map<Pos, nat>, parent: map<Pos, Pos>,
                    x: Pos, n: Pos)
    requires Inv(rows, cols, s, depth, parent, {}, {x})
    requires Room(rows, cols, x) && s.board[x] == Path && TwoAway(rows, cols, x, n)
    ensures Inv(rows, cols, EnlistF(s, n), depth, parent, {}, {x})
    ensures EnlistF(s, n).board[n] in {Path, Frontier}
    ensures forall q | q in s.board && s.board[q] != Wall :: EnlistF(s, n).board[q] == s.board[q]
  {
    TwoAwayRoom(rows, cols, x, n);
    var r := EnlistF(s, n);
    if r != s {
      var b := r.board;
      assert HasPathNeighbor(rows, cols, b, n);
      forall k | 0 <= k < |s.frontier| ensures HasPathNeighbor(rows, cols, b, s.frontier[k]) {
        assert HasPathNeighbor(rows, cols, s.board, s.frontier[k]);
      }
      forall p | p in b && Room(rows, cols, p) && b[p] == Path && p != x
        ensures Settled(rows, cols, b, p)
      {
        assert Settled(rows, cols, s.board, p);
      }
    } else {
      assert s.board[n] != Wall || n in s.frontier;
      assert n in s.board;
    }
  }

  /** Adding the frontier cells around `x` is its four guarded steps in order. */
  lemma AddFrontierSteps(rows: int, cols: int, s0: Gen, x: Pos, s1: Gen, s2: Gen, s3: Gen, s4: Gen)
    requires s1 == EnlistIf(DirOk(rows, cols, x, 0), s0, Dir(x, 0))
    requires s2 == EnlistIf(DirOk(rows, cols, x, 1), s1, Dir(x, 1))
    requires s3 == EnlistIf(DirOk(rows, cols, x, 2), s2, Dir(x, 2))
    requires s4 == EnlistIf(DirOk(rows, cols, x, 3), s3, Dir(x, 3))
    ensures s4 == AddFrontierF(rows, cols, s0, x)
  {
    assert AddFrontierFrom(rows, cols, s3, x, 3) == s4;
    assert AddFrontierFrom(rows, cols, s2, x, 2) == s4;
    assert AddFrontierFrom(rows, cols, s1, x, 1) == s4;
  }

  lemma DirTwoAway(rows: int, cols: int, x: Pos, k: nat)
    requires k < 4 && DirOk(rows, cols, x, k)
    ensures TwoAway(rows, cols, x, Dir(x, k))
  {
  }

  /** Enlisting the cells of directions `k`, ..., 3 around the carved room `x` keeps
      the invariant and every listed entry, changes no non-wall cell, and leaves each
      enlisted cell carved or on the frontier. */
  lemma {:induction false} AddFrontierFromKeeps(rows: int, cols: int, s: Gen, depth: map<Pos, nat>,
                                                parent: map<Pos, Pos>, x: Pos, k: nat)
    requires Inv(rows, cols, s, depth, parent, {}, {x})
    requires Room(rows, cols, x) && s.board[x] == Path
    ensures Inv(rows, cols, AddFrontierFrom(rows, cols, s, x, k), depth, parent, {}, {x})
    ensures s.frontier <= AddFrontierFrom(rows, cols, s, x, k).frontier
    ensures forall q | q in s.board && s.board[q] != Wall ::
      AddFrontierFrom(rows, cols, s, x, k).board[q] == s.board[q]
    ensures forall j | k <= j < 4 && DirOk(rows, cols, x, j) ::
      AddFrontierFrom(rows, cols, s, x, k).board[Dir(x, j)] in {Path, Frontier}
    decreases 4 - k
  {
    if k < 4 {
      var c := DirOk(rows, cols, x, k);
      var s' := EnlistIf(c, s, Dir(x, k));
      if c {
        DirTwoAway(rows, cols, x, k);
        EnlistKeeps(rows, cols, s, depth, parent, x, Dir(x, k));
      }
      AddFrontierFromKeeps(rows, cols, s', depth, parent, x, k + 1);
    }
  }

  /** Adding the frontier cells around a carved room keeps every listed entry, changes
      no non-wall cell, and settles the room, restoring the invariant. */
  lemma AddFrontierKeeps(rows: int, cols: int, s: Gen, depth: map<Pos, nat>, parent: map<Pos, Pos>,
                         x: Pos)
    requires Inv(rows, cols, s, depth, parent, {}, {x})
    requires Room(rows, cols, x) && s.board[x] == Path
    ensures GenInv(rows, cols, AddFrontierF(rows, cols, s, x), depth, parent)
    ensures s.frontier <= AddFrontierF(rows, cols, s, x).frontier
    ensures forall q | q in s.board && s.board[q] != Wall ::
      AddFrontierF(rows, cols, s, x).board[q] == s.board[q]
  {
    AddFrontierFromKeeps(rows, cols, s, depth, parent, x, 0);
    var r := AddFrontierF(rows, cols, s, x);
    assert DirOk(rows, cols, x, 0) ==> r.board[Dir(x, 0)] in {Path, Frontier};
    assert DirOk(rows, cols, x, 1) ==> r.board[Dir(x, 1)] in {Path, Frontier};
    assert DirOk(rows, cols, x, 2) ==> r.board[Dir(x, 2)] in {Path, Frontier};
    assert DirOk(rows, cols, x, 3) ==> r.board[Dir(x, 3)] in {Path, Frontier};
    assert Settled(rows, cols, r.board, x);
  }

  /** Hanging a new node `a` below the node `b` keeps a tree a tree. */
  lemma TreeGrow(depth: map<Pos, nat>, parent: map<Pos, Pos>, root: Pos, a: Pos, b: Pos)
    requires Tree(depth, parent, root) && b in depth && a !in depth && Adjacent(a, b)
    ensures Tree(depth[a := depth[b] + 1], parent[a := b], root)
  {
  }

  /** Carving the frontier room `x` and the cell between it and the carved room `n`
      keeps the invariant, with `x` left to be settled. */
  lemma JoinKeeps(rows: int, cols: int, s: Gen, depth: map<Pos, nat>, parent: map<Pos, Pos>,
                  x: Pos, n: Pos)
    returns (depth': map<Pos, nat>, parent': map<Pos, Pos>)
    requires Inv(rows, cols, s, depth, parent, {x}, {})
    requires Room(rows, cols, x) && s.board[x] == Frontier && x !in s.frontier
    requires TwoAway(rows, cols, x, n) && s.board[n] == Path
    ensures Inv(rows, cols, Gen(s.board[x := Path][Mid(x, n) := Path], s.frontier), depth', parent', {}, {x})
    ensures depth.Keys <= depth'.Keys && x in depth'
  {
    TwoAwayRoom(rows, cols, x, n);
    var mid := Mid(x, n);
    var b := s.board[x := Path][mid := Path];
    assert x !in depth;
    var depth1, parent1 := depth, parent;
    if mid !in depth {
      TreeGrow(depth, parent, StartPos(), mid, n);
      depth1 := depth[mid := depth[n] + 1];
      parent1 := parent[mid := n];
    }
    TreeGrow(depth1, parent1, StartPos(), x, mid);
    depth' := depth1[x := depth1[mid] + 1];
    parent' := parent1[x := mid];
    forall k | 0 <= k < |s.frontier| ensures HasPathNeighbor(rows, cols, b, s.frontier[k]) {
      assert HasPathNeighbor(rows, cols, s.board, s.frontier[k]);
    }
    forall p | p in b && Room(rows, cols, p) && b[p] == Path && p != x
      ensures Settled(rows, cols, b, p)
    {
      assert Settled(rows, cols, s.board, p);
    }
  }

  /** Carving a frontier room that has just left the list grows the tree by the room
      (and the cell joining it to the tree) and restores the invariant. */
  lemma CarveKeeps(rows: int, cols: int, s: Gen, depth: map<Pos, nat>, parent: map<Pos, Pos>,
                   x: Pos, choice: nat)
    returns (depth': map<Pos, nat>, parent': map<Pos, Pos>)
    requires Inv(rows, cols, s, depth, parent, {x}, {})
    requires Room(rows, cols, x) && s.board[x] == Frontier && x !in s.frontier
    requires HasPathNeighbor(rows, cols, s.board, x)
    ensures GenInv(rows, cols, CarveF(rows, cols, s, x, choice), depth', parent')
    ensures depth.Keys <= depth'.Keys && x in depth'
    ensures var r := CarveF(rows, cols, s, x, choice);
      s.frontier <= r.frontier && x !in r.frontier && r.board[x] == Path &&
      exists n :: TwoAway(rows, cols, x, n) && s.board[n] == Path && r.board[Mid(x, n)] == Path
  {
    var nbrs := PathNeighbors(rows, cols, s.board, x);
    var n := nbrs[Pick(|nbrs|, choice)];
    assert n in nbrs;
    var s1 := Gen(s.board[x := Path][Mid(x, n) := Path], s.frontier);
    depth', parent' := JoinKeeps(rows, cols, s, depth, parent, x, n);
    AddFrontierKeeps(rows, cols, s1, depth', parent', x);
    var r := CarveF(rows, cols, s, x, choice);
    assert r == AddFrontierF(rows, cols, s1, x);
    TwoAwayRoom(rows, cols, x, n);
    assert s1.board[Mid(x, n)] == Path && r.board[Mid(x, n)] == Path;
    assert r.board[x] == Path;
  }

  lemma RemoveAtFacts(s: seq<Pos>, k: nat)
    requires Distinct(s) && k < |s|
    ensures Distinct(RemoveAt(s, k))
    ensures forall j :: 0 <= j < |s| - 1 ==> RemoveAt(s, k)[j] == s[if j < k then j else j + 1]
    ensures forall q :: q in RemoveAt(s, k) <==> q in s && q != s[k]
  {
    var r := RemoveAt(s, k);
    assert forall j :: 0 <= j < |r| ==> r[j] == s[if j < k then j else j + 1];
    forall q | q in s && q != s[k] ensures q in r {
      var i :| 0 <= i < |s| && s[i] == q;
      assert r[if i < k then i else i - 1] == q;
    }
  }

  /** A step on a non-empty frontier continues, keeps the invariant and carves at
      least one more cell, so generation runs out of frontier after finitely many
      steps. */
  lemma StepKeeps(rows: int, cols: int, s: Gen, depth: map<Pos, nat>, parent: map<Pos, Pos>,
                  r1: nat, r2: nat)
    returns (depth': map<Pos, nat>, parent': map<Pos, Pos>)
    requires GenInv(rows, cols, s, depth, parent) && |s.frontier| > 0
    ensures StepF(rows, cols, s, r1, r2).1 == Continue
    ensures GenInv(rows, cols, StepF(rows, cols, s, r1, r2).0, depth', parent')
    ensures depth.Keys < depth'.Keys
    ensures var k := Pick(|s.frontier|, r1); var x := s.frontier[k]; var r := StepF(rows, cols, s, r1, r2).0;
      RemoveAt(s.frontier, k) <= r.frontier && x !in r.frontier && r.board[x] == Path &&
      exists n :: TwoAway(rows, cols, x, n) && s.board[n] == Path && r.board[Mid(x, n)] == Path
  {
    var k := Pick(|s.frontier|, r1);
    var x := s.frontier[k];
    var rest := RemoveAt(s.frontier, k);
    RemoveAtFacts(s.frontier, k);
    var s0 := Gen(s.board, rest);
    assert Inv(rows, cols, s0, depth, parent, {x}, {});
    depth', parent' := CarveKeeps(rows, cols, s0, depth, parent, x, r2);
  }

  /** The state generation starts from satisfies the invariant, with (1,1) as the
      only carved cell. */
  lemma BeginKeeps(rows: int, cols: int)
    requires ValidDims(rows, cols)
    ensures GenInv(rows, cols, BeginF(rows, cols), map[StartPos() := 0], map[])
    ensures forall p | p in BeginF(rows, cols).board ::
      (BeginF(rows, cols).board[p] == Path <==> p == StartPos())
  {
    var s := Gen(AllWallBoard(rows, cols)[StartPos() := Path], []);
    assert Inv(rows, cols, s, map[StartPos() := 0], map[], {}, {StartPos()});
    AddFrontierKeeps(rows, cols, s, map[StartPos() := 0], map[], StartPos());
  }

  /** The in-bounds cells not yet carved: a step of the generator strictly shrinks
      this set, so generation ends. */
  lemma CarvedShrinks(rows: int, cols: int, s: Gen, depth: map<Pos, nat>, parent: map<Pos, Pos>,
                      depth': map<Pos, nat>, parent': map<Pos, Pos>, s': Gen)
    requires GenInv(rows, cols, s', depth', parent') && depth.Keys < depth'.Keys
    ensures Cells(rows, cols) - depth'.Keys < Cells(rows, cols) - depth.Keys
  {
    LeftShrinks(Cells(rows, cols), depth.Keys, depth'.Keys);
  }

  /** A finished maze: 'E' on the end cell and 'S' on the start unless the two
      coincide; only '#', 'P', 'S', 'E' occur, 'S' and 'E' only there; the border is
      wall; every room is open; and every open cell can be reached from the start
      through open cells. */
  ghost predicate Generated(rows: int, cols: int, g: Board) {
    ValidDims(rows, cols) && Shaped(rows, cols, g) &&
    g[EndPos(rows, cols)] == End &&
    (StartPos() != EndPos(rows, cols) ==> g[StartPos()] == Start) &&
    (forall p | p in g :: g[p] in {Wall, Path, Start, End}) &&
    (forall p | p in g && g[p] == Start :: p == StartPos()) &&
    (forall p | p in g && g[p] == End :: p == EndPos(rows, cols)) &&
    (forall p | p in g && OnBorder(rows, cols, p) :: g[p] == Wall) &&
    (forall p | p in g && Room(rows, cols, p) :: g[p] != Wall) &&
    (forall p | p in OpenOf(g) :: Reachable(OpenOf(g), StartPos(), p))
  }

  /** Once the frontier is empty every room has been carved. */
  lemma {:induction false} AllRoomsCarved(rows: int, cols: int, s: Gen, depth: map<Pos, nat>,
                                          parent: map<Pos, Pos>, p: Pos)
    requires GenInv(rows, cols, s, depth, parent) && s.frontier == []
    requires Room(rows, cols, p)
    ensures s.board[p] == Path
    decreases p.0 + p.1
  {
    assert s.board[p] != Frontier;
    if p != StartPos() {
      var q := if p.0 >= 3 then (p.0 - 2, p.1) else (p.0, p.1 - 2);
      AllRoomsCarved(rows, cols, s, depth, parent, q);
      assert Settled(rows, cols, s.board, q);
    }
  }

  /** The walk from the root down the tree to the node `c`. */
  lemma {:induction false} RouteToRoot(depth: map<Pos, nat>, parent: map<Pos, Pos>, root: Pos, c: Pos)
    returns (w: seq<Pos>)
    requires Tree(depth, parent, root) && c in depth
    ensures IsRoute(w, root, depth.Keys) && Last(w) == c
    decreases depth[c]
  {
    if c == root {
      w := [root];
    } else {
      var w' := RouteToRoot(depth, parent, root, parent[c]);
      w := w' + [c];
    }
  }

  /** When the frontier runs out, stamping the start and end yields a finished maze. */
  lemma DoneGenerated(rows: int, cols: int, s: Gen, depth: map<Pos, nat>, parent: map<Pos, Pos>)
    requires GenInv(rows, cols, s, depth, parent) && s.frontier == []
    ensures Generated(rows, cols, StampF(rows, cols, s.board))
  {
    var g := StampF(rows, cols, s.board);
    AllRoomsCarved(rows, cols, s, depth, parent, EndPos(rows, cols));
    forall p | p in g && Room(rows, cols, p) ensures g[p] != Wall {
      AllRoomsCarved(rows, cols, s, depth, parent, p);
    }
    assert OpenOf(g) == depth.Keys by {
      forall p | p in g ensures p in OpenOf(g) <==> p in depth {
        assert s.board[p] != Frontier;
      }
    }
    forall p | p in OpenOf(g) ensures Reachable(OpenOf(g), StartPos(), p) {
      var w := RouteToRoot(depth, parent, StartPos(), p);
    }
  }

  /** The list with the first occurrence of `x` removed (Python's `list.remove`,
      which raises an error when `x` does not occur; its only call removes a value
      just picked from the list). */
  function RemoveFirst(s: seq<Pos>, x: Pos): (r: seq<Pos>)
    requires x in s
    ensures |r| == |s| - 1
  {
    if s[0] == x then s[1..]
    else [s[0]] + RemoveFirst(s[1..], x)
  }

  /** Removing `x` takes exactly one copy of `x` out of the list's contents. */
  lemma {:induction false} RemoveFirstContents(s: seq<Pos>, x: Pos)
    requires x in s
    ensures multiset(RemoveFirst(s, x)) == multiset(s) - multiset{x}
  {
    assert s == [s[0]] + s[1..];
    if s[0] != x {
      RemoveFirstContents(s[1..], x);
    }
  }

  /** On a list without duplicates, removing the value at position `k` is splicing
      out position `k`. */
  lemma {:induction false} RemoveFirstAt(s: seq<Pos>, k: nat)
    requires Distinct(s) && k < |s|
    ensures RemoveFirst(s, s[k]) == RemoveAt(s, k)
  {
    if k > 0 {
      assert s[1..][k - 1] == s[k] && s[k] in s[1..];
      RemoveFirstAt(s[1..], k - 1);
      assert s[0] != s[k];
      calc {
        RemoveFirst(s, s[k]);
        [s[0]] + RemoveFirst(s[1..], s[k]);
        [s[0]] + (s[1..][..k - 1] + s[1..][k..]);
        { assert [s[0]] + s[1..][..k - 1] == s[..k]; assert s[1..][k..] == s[k + 1..]; }
        s[..k] + s[k + 1..];
      }
    }
  }

  // ---------------------------------------------------------------------------
  // The same steps on the grid array.
  // ---------------------------------------------------------------------------

  /** Fills every cell with a wall, row by row. */
  method FillWalls(m: array2<Cell>)
    modifies m
    ensures Snap(m) == AllWallBoard(m.Length0, m.Length1)
  {
    for i := 0 to m.Length0
      invariant forall a, b :: 0 <= a < i && 0 <= b < m.Length1 ==> m[a, b] == Wall
    {
      for j := 0 to m.Length1
        invariant forall a, b :: 0 <= a < i && 0 <= b < m.Length1 ==> m[a, b] == Wall
        invariant forall b :: 0 <= b < j ==> m[i, b] == Wall
      {
        m[i, j] := Wall;
      }
    }
    SnapIs(m, AllWallBoard(m.Length0, m.Length1));
  }

  /** One direction of adding frontier cells on the grid: under the bounds check
      for direction `k`, a wall cell not yet listed is listed and marked 'F'. */
  method EnlistAt(m: array2<Cell>, x: Pos, k: nat, frontier: seq<Pos>) returns (frontier': seq<Pos>)
    requires ValidDims(m.Length0, m.Length1) && Room(m.Length0, m.Length1, x) && k < 4
    modifies m
    ensures Gen(Snap(m), frontier') ==
      EnlistIf(DirOk(m.Length0, m.Length1, x, k), Gen(old(Snap(m)), frontier), Dir(x, k))
  {
    frontier' := frontier;
    var n := Dir(x, k);
    if DirOk(m.Length0, m.Length1, x, k) && m[n.0, n.1] == Wall {
      if n !in frontier {
        frontier' := frontier + [n];
        Put(m, n, Frontier);
      }
    }
  }

  /** Lists and marks the wall cells two steps from `x`, in the order up, down,
      left, right. */
  method AddFrontierCells(m: array2<Cell>, x: Pos, frontier: seq<Pos>) returns (frontier': seq<Pos>)
    requires ValidDims(m.Length0, m.Length1) && Room(m.Length0, m.Length1, x)
    modifies m
    ensures Gen(Snap(m), frontier') == AddFrontierF(m.Length0, m.Length1, Gen(old(Snap(m)), frontier), x)
  {
    ghost var s0 := Gen(Snap(m), frontier);
    frontier' := EnlistAt(m, x, 0, frontier);
    ghost var s1 := Gen(Snap(m), frontier');
    frontier' := EnlistAt(m, x, 1, frontier');
    ghost var s2 := Gen(Snap(m), frontier');
    frontier' := EnlistAt(m, x, 2, frontier');
    ghost var s3 := Gen(Snap(m), frontier');
    frontier' := EnlistAt(m, x, 3, frontier');
    AddFrontierSteps(m.Length0, m.Length1, s0, x, s1, s2, s3, Gen(Snap(m), frontier'));
  }

  /** The carve candidates of `x` read off the grid, in the order up, down, left,
      right. */
  method FindPathNeighbors(m: array2<Cell>, x: Pos) returns (neighbors: seq<Pos>)
    requires Room(m.Length0, m.Length1, x)
    ensures neighbors == PathNeighbors(m.Length0, m.Length1, Snap(m), x)
  {
    var n1 := PathNeighborAt(m, x, 0, []);
    var n2 := PathNeighborAt(m, x, 1, n1);
    var n3 := PathNeighborAt(m, x, 2, n2);
    neighbors := PathNeighborAt(m, x, 3, n3);
  }

  /** One direction of the neighbour search: under the bounds check for direction `k`,
      a carved cell there is appended to `ns`. */
  method PathNeighborAt(m: array2<Cell>, x: Pos, k: nat, ns: seq<Pos>) returns (ns': seq<Pos>)
    requires Room(m.Length0, m.Length1, x) && k < 4
    ensures ns' == PushIf(ns, DirOk(m.Length0, m.Length1, x, k) && Snap(m)[Dir(x, k)] == Path, Dir(x, k))
  {
    ns' := ns;
    var n := Dir(x, k);
    if DirOk(m.Length0, m.Length1, x, k) && m[n.0, n.1] == Path {
      ns' := ns + [n];
    }
  }

  /** The rest of a generation step on the grid once `x` has left the frontier list:
      when a carved cell lies two steps away, joins `x` to the `choice`-th such cell
      (modulo their number) and lists the wall cells around `x`. */
  method CarveAt(m: array2<Cell>, x: Pos, frontier: seq<Pos>, choice: nat) returns (frontier': seq<Pos>)
    requires ValidDims(m.Length0, m.Length1) && Room(m.Length0, m.Length1, x)
    modifies m
    ensures Gen(Snap(m), frontier') == CarveF(m.Length0, m.Length1, Gen(old(Snap(m)), frontier), x, choice)
  {
    var neighbors := FindPathNeighbors(m, x);
    frontier' := frontier;
    if |neighbors| > 0 {
      var n := neighbors[Pick(|neighbors|, choice)];
      TwoAwayRoom(m.Length0, m.Length1, x, n);
      Put(m, x, Path);
      Put(m, Mid(x, n), Path);
      frontier' := AddFrontierCells(m, x, frontier');
    }
  }

  /** Stamps 'S' on the start and then 'E' on the end. */
  method Stamp(m: array2<Cell>)
    requires ValidDims(m.Length0, m.Length1)
    modifies m
    ensures Snap(m) == StampF(m.Length0, m.Length1, old(Snap(m)))
  {
    Put(m, StartPos(), Start);
    Put(m, EndPos(m.Length0, m.Length1), End);
  }
}
