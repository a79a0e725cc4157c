/** The grid of maze cells: positions, the four direction indices, wall flags
    and the well-formedness conditions a generated maze satisfies. */
module Grid {

  /** A cell position: column `x` grows eastward, row `y` grows southward. */
  datatype Pos = Pos(x: int, y: int)

  const Origin: Pos := Pos(0, 0)

  /** Direction indices 0, 1, 2, 3 stand for N, E, S, W, in the order of the
      game's direction table; DX and DY are the matching column and row steps. */
  const DX: seq<int> := [0, 1, 0, -1]
  const DY: seq<int> := [-1, 0, 1, 0]

  predicate IsDir(d: int) {
    0 <= d < 4
  }

  /** The opposite direction (N and S, E and W): a step that way undoes a
      step in direction `d`. */
  function Opp(d: int): (o: int)
    requires IsDir(d)
    ensures IsDir(o) && o != d
    ensures DX[o] == -DX[d] && DY[o] == -DY[d]
  {
    (d + 2) % 4
  }

  /** The cell one step from `p` in direction `d`: one of its four
      orthogonal neighbours. */
  function Step(p: Pos, d: int): (q: Pos)
    requires IsDir(d)
    ensures (q.x == p.x && (q.y == p.y - 1 || q.y == p.y + 1)) ||
            (q.y == p.y && (q.x == p.x - 1 || q.x == p.x + 1))
    ensures q.x - p.x == DX[d] && q.y - p.y == DY[d]
  {
    Pos(p.x + DX[d], p.y + DY[d])
  }

  /** Stepping one way and then the opposite way returns to the start, and
      taking the opposite twice gives back the direction. */
  lemma StepBack(p: Pos, d: int)
    requires IsDir(d)
    ensures Opp(Opp(d)) == d
    ensures Opp(d) != d
    ensures Step(Step(p, d), Opp(d)) == p
    ensures Step(p, d) != p
  {
  }

  /** The four wall flags of a cell. */
  datatype Walls = Walls(n: bool, e: bool, s: bool, w: bool)

  const Closed: Walls := Walls(true, true, true, true)

  function Has(ws: Walls, d: int): bool
    requires IsDir(d)
  {
    if d == 0 then ws.n else if d == 1 then ws.e else if d == 2 then ws.s else ws.w
  }

  /** Removes the wall in direction `d` and no other. */
  function Clear(ws: Walls, d: int): (r: Walls)
    requires IsDir(d)
    ensures !Has(r, d)
    ensures forall e | IsDir(e) && e != d :: Has(r, e) == Has(ws, e)
  {
    if d == 0 then ws.(n := false)
    else if d == 1 then ws.(e := false)
    else if d == 2 then ws.(s := false)
    else ws.(w := false)
  }

  /** One grid cell as the generator builds it: its own coordinates, the
      visited mark of the backtracker, and its walls. */
  datatype Cell = Cell(x: int, y: int, visited: bool, walls: Walls)

  /** Rows indexed by `y`, each row indexed by `x`. */
  type Maze = seq<seq<Cell>>

  predicate InBounds(p: Pos, w: int, h: int) {
    0 <= p.x < w && 0 <= p.y < h
  }

  predicate Shaped(m: Maze, w: int, h: int) {
    |m| == h && forall y | 0 <= y < h :: |m[y]| == w
  }

  function At(m: Maze, p: Pos): Cell
    requires 0 <= p.y < |m| && 0 <= p.x < |m[p.y]|
  {
    m[p.y][p.x]
  }

  /** Whether the cell at `p` has its wall in direction `d`. */
  predicate WallAt(m: Maze, p: Pos, d: int)
    requires 0 <= p.y < |m| && 0 <= p.x < |m[p.y]|
    requires IsDir(d)
  {
    Has(At(m, p).walls, d)
  }

  /** Every cell records its own position. */
  ghost predicate Labelled(m: Maze, w: int, h: int) {
    Shaped(m, w, h) &&
    forall p {:trigger At(m, p)} | InBounds(p, w, h) :: At(m, p).x == p.x && At(m, p).y == p.y
  }

  /** A wall between two neighbouring cells is present on both sides or on neither. */
  ghost predicate Symmetric(m: Maze, w: int, h: int) {
    Shaped(m, w, h) &&
    forall p, d | InBounds(p, w, h) && IsDir(d) && InBounds(Step(p, d), w, h) ::
      WallAt(m, p, d) == WallAt(m, Step(p, d), Opp(d))
  }

  /** Every wall facing out of the grid is present. */
  ghost predicate BoundaryClosed(m: Maze, w: int, h: int) {
    Shaped(m, w, h) &&
    forall p, d | InBounds(p, w, h) && IsDir(d) && !InBounds(Step(p, d), w, h) :: WallAt(m, p, d)
  }

  /** A maze as the generator hands it out, apart from connectivity. */
  ghost predicate WellFormed(m: Maze, w: int, h: int) {
    Labelled(m, w, h) && Symmetric(m, w, h) && BoundaryClosed(m, w, h)
  }

  /** There is an opening from `p` toward its in-grid neighbour in direction `d`. */
  predicate Open(m: Maze, w: int, h: int, p: Pos, d: int) {
    Shaped(m, w, h) && InBounds(p, w, h) && IsDir(d) && InBounds(Step(p, d), w, h) && !WallAt(m, p, d)
  }

  /** `q` is reached from `p` through one opening. */
  ghost predicate Linked(m: Maze, w: int, h: int, p: Pos, q: Pos) {
    exists d | IsDir(d) :: Open(m, w, h, p, d) && Step(p, d) == q
  }

  /** A walk through openings, from its first cell to its last. */
  ghost predicate IsPath(m: Maze, w: int, h: int, path: seq<Pos>) {
    |path| > 0 &&
    (forall i | 0 <= i < |path| :: InBounds(path[i], w, h)) &&
    forall i | 0 <= i < |path| - 1 :: Linked(m, w, h, path[i], path[i + 1])
  }

  /** `p` is reached from the start cell (0,0) by a walk through openings. */
  ghost predicate Reachable(m: Maze, w: int, h: int, p: Pos) {
    exists path {:trigger IsPath(m, w, h, path)} :: IsPath(m, w, h, path) && path[0] == Origin && path[|path| - 1] == p
  }

  /** Every cell is reachable from the start cell (0,0) through openings. */
  ghost predicate Connected(m: Maze, w: int, h: int) {
    forall p {:trigger Reachable(m, w, h, p)} | InBounds(p, w, h) :: Reachable(m, w, h, p)
  }

  /** An undirected wall position, named by the cell west or north of it and
      the direction E (1) or S (2). */
  predicate IsEdgeKey(e: (Pos, int)) {
    e.1 == 1 || e.1 == 2
  }

  /** The key of the wall between `p` and its neighbour in direction `d`. */
  function EdgeKey(p: Pos, d: int): (e: (Pos, int))
    requires IsDir(d)
    ensures IsEdgeKey(e)
  {
    if d == 1 || d == 2 then (p, d) else (Step(p, d), Opp(d))
  }

  /** `edges` holds the key of every opening and nothing else. */
  ghost predicate EdgesOk(m: Maze, w: int, h: int, edges: set<(Pos, int)>) {
    forall e {:trigger e in edges} {:trigger Open(m, w, h, e.0, e.1)} ::
      e in edges <==> IsEdgeKey(e) && Open(m, w, h, e.0, e.1)
  }

  /** The openings form a spanning tree of the grid: every cell is reached
      from (0,0), and there are exactly W*H-1 openings, each counted once. */
  ghost predicate SpanningTree(m: Maze, w: int, h: int) {
    Connected(m, w, h) &&
    exists edges {:trigger EdgesOk(m, w, h, edges)} :: EdgesOk(m, w, h, edges) && |edges| == w * h - 1
  }

  /** The set of all in-grid cells. */
  lemma {:induction false} AllCells(w: nat, h: nat) returns (s: set<Pos>)
    ensures forall p :: p in s <==> InBounds(p, w, h)
    ensures |s| == w * h
  {
    if h == 0 {
      s := {};
    } else {
      var above := AllCells(w, h - 1);
      var row := RowCells(w, h - 1);
      forall p | p in above
        ensures p !in row
      {
      }
      s := above + row;
      assert |s| == |above| + |row|;
      assert w * (h - 1) + w == w * h;
    }
  }

  /** The cells of row `y` in a grid of width `w`. */
  lemma {:induction false} RowCells(w: nat, y: int) returns (s: set<Pos>)
    ensures forall p :: p in s <==> 0 <= p.x < w && p.y == y
    ensures |s| == w
  {
    if w == 0 {
      s := {};
    } else {
      var rest := RowCells(w - 1, y);
      assert Pos(w - 1, y) !in rest;
      s := rest + {Pos(w - 1, y)};
    }
  }
}
