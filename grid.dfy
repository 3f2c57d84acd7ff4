/** Grid model shared by the generator and the solver: cell states, coordinates,
    bounds, axis adjacency and routes through passable cells. */
module Grid {

  /** The seven cell markings of the maze: '#', 'P', 'S', 'E', 'V', 'F' and '.'. */
  datatype Cell = Wall | Path | Start | End | Visited | Frontier | Solution

  /** What one call of a resumable step function reports to its driver. */
  datatype StepResult = Continue | Done | Found | Exhausted

  /** A coordinate (row, column); it replaces the "i,j" string keys of the browser copy. */
  type Pos = (int, int)

  datatype Option<T> = None | Some(value: T)

  /** The contents of a grid as a value: one cell state per in-bounds coordinate. */
  type Board = map<Pos, Cell>

  /** Both dimensions odd and at least 3, as the grid layout requires. */
  predicate ValidDims(rows: int, cols: int) {
    3 <= rows && 3 <= cols && rows % 2 == 1 && cols % 2 == 1
  }

  function StartPos(): Pos { (1, 1) }

  function EndPos(rows: int, cols: int): Pos { (rows - 2, cols - 2) }

  predicate InBounds(rows: int, cols: int, p: Pos) {
    0 <= p.0 < rows && 0 <= p.1 < cols
  }

  predicate OnBorder(rows: int, cols: int, p: Pos) {
    InBounds(rows, cols, p) && (p.0 == 0 || p.0 == rows - 1 || p.1 == 0 || p.1 == cols - 1)
  }

  predicate Interior(rows: int, cols: int, p: Pos) {
    1 <= p.0 <= rows - 2 && 1 <= p.1 <= cols - 2
  }

  /** A room: an interior cell with two odd coordinates, the cells the generator joins. */
  predicate Room(rows: int, cols: int, p: Pos) {
    Interior(rows, cols, p) && p.0 % 2 == 1 && p.1 % 2 == 1
  }

  /** A random pick among `count` items: the random number `r` taken modulo `count`
      (the source scales a uniform random number to an index; only the index is
      modelled). */
  function Pick(count: nat, r: nat): (k: nat)
    requires count > 0
    ensures k < count
  {
    r % count
  }

  /** The set of all in-bounds coordinates. */
  function Cells(rows: int, cols: int): (r: set<Pos>)
    ensures forall p :: p in r <==> InBounds(rows, cols, p)
  {
    var r := set i, j | 0 <= i < rows && 0 <= j < cols :: (i, j);
    assert forall p :: InBounds(rows, cols, p) ==> p == (p.0, p.1) && p in r;
    r
  }

  /** A board has exactly one entry per in-bounds coordinate. */
  ghost predicate Shaped(rows: int, cols: int, g: Board) {
    forall p :: p in g <==> InBounds(rows, cols, p)
  }

  /** The array holds exactly the board `g`. */
  ghost predicate Mirror(m: array2<Cell>, g: Board)
    reads m
  {
    Shaped(m.Length0, m.Length1, g) &&
    forall i, j :: 0 <= i < m.Length0 && 0 <= j < m.Length1 ==> m[i, j] == g[(i, j)]
  }

  /** The current contents of an array as a board. */
  ghost function Snap(m: array2<Cell>): (g: Board)
    reads m
    ensures Shaped(m.Length0, m.Length1, g)
  {
    map p | p in Cells(m.Length0, m.Length1) :: m[p.0, p.1]
  }

  lemma SnapIs(m: array2<Cell>, g: Board)
    requires Mirror(m, g)
    ensures Snap(m) == g
  {
    assert forall p | p in g :: g[p] == m[p.0, p.1];
  }

  /** Writes one cell of the grid. */
  method Put(m: array2<Cell>, p: Pos, v: Cell)
    requires InBounds(m.Length0, m.Length1, p)
    modifies m
    ensures Snap(m) == old(Snap(m))[p := v]
  {
    ghost var g := Snap(m)[p := v];
    m[p.0, p.1] := v;
    SnapIs(m, g);
  }

  /** A board with a wall on every cell. */
  function AllWallBoard(rows: int, cols: int): (g: Board)
    ensures Shaped(rows, cols, g) && forall p | p in g :: g[p] == Wall
  {
    map p | p in Cells(rows, cols) :: Wall
  }

  /** The two cells share a side. */
  predicate Adjacent(a: Pos, b: Pos) {
    (a.0 == b.0 && (a.1 == b.1 + 1 || b.1 == a.1 + 1)) ||
    (a.1 == b.1 && (a.0 == b.0 + 1 || b.0 == a.0 + 1))
  }

  /** The four side neighbours, in the order up, down, left, right. */
  function Around(p: Pos): (r: seq<Pos>)
    ensures |r| == 4
    ensures forall q :: q in r <==> Adjacent(p, q)
  {
    [(p.0 - 1, p.1), (p.0 + 1, p.1), (p.0, p.1 - 1), (p.0, p.1 + 1)]
  }

  /** No position occurs twice. */
  ghost predicate Distinct(s: seq<Pos>) {
    forall a, b :: 0 <= a < b < |s| ==> s[a] != s[b]
  }

  function Last(w: seq<Pos>): Pos
    requires |w| > 0
  {
    w[|w| - 1]
  }

  /** A walk that starts at `from` and moves between adjacent cells, every cell after
      the first lying in `open`. */
  ghost predicate IsRoute(w: seq<Pos>, from: Pos, open: set<Pos>) {
    |w| >= 1 && w[0] == from &&
    (forall k :: 1 <= k < |w| ==> w[k] in open) &&
    (forall k :: 0 <= k < |w| - 1 ==> Adjacent(w[k], w[k + 1]))
  }

  ghost predicate Reachable(open: set<Pos>, from: Pos, to: Pos) {
    exists w :: IsRoute(w, from, open) && Last(w) == to
  }

  /** The passable (non-wall) cells of a board. */
  function OpenOf(g: Board): set<Pos> {
    set p | p in g && g[p] != Wall
  }

  /** Growing a subset of `all` strictly shrinks what is left of `all`. */
  lemma LeftShrinks(all: set<Pos>, a: set<Pos>, b: set<Pos>)
    requires a < b <= all
    ensures all - b < all - a
  {
    var x :| x in b && x !in a;
    assert x in all - a;
  }
}
