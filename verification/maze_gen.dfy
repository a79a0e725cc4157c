/** The randomized depth-first backtracker that carves a maze out of a grid
    of closed cells. The random source is a sequence of supplied draws: the
    k-th choice among `n` candidates takes `rolls[k] % n`, so every choice the
    game can make is reachable by some sequence of draws. */
module MazeGen {
  import opened Grid

  /** The grid before carving: every cell unvisited, with all four walls. */
  function InitialGrid(w: nat, h: nat): (m: Maze)
    ensures Shaped(m, w, h)
    ensures forall p | InBounds(p, w, h) :: At(m, p) == Cell(p.x, p.y, false, Closed)
  {
    seq(h, y => seq(w, x => Cell(x, y, false, Closed)))
  }

  /** Replaces one cell and keeps every other. */
  function SetCell(m: Maze, p: Pos, c: Cell): (r: Maze)
    requires 0 <= p.y < |m| && 0 <= p.x < |m[p.y]|
    ensures |r| == |m| && forall y | 0 <= y < |m| :: |r[y]| == |m[y]|
    ensures forall q: Pos | 0 <= q.y < |m| && 0 <= q.x < |m[q.y]| :: At(r, q) == if q == p then c else At(m, q)
  {
    m[p.y := m[p.y][p.x := c]]
  }

  /** The neighbour of `c` in direction `d` lies in the grid and is not yet visited. */
  predicate CanVisit(m: Maze, w: int, h: int, c: Pos, d: int)
    requires Shaped(m, w, h)
  {
    IsDir(d) && InBounds(Step(c, d), w, h) && !At(m, Step(c, d)).visited
  }

  /** Each entry is smaller than every later one: the list is in order and without repeats. */
  predicate Increasing(s: seq<int>) {
    forall i, j | 0 <= i < j < |s| :: s[i] < s[j]
  }

  /** An entry below every entry of an increasing list can go in front. */
  lemma IncreasingCons(d: int, s: seq<int>)
    requires Increasing(s) && forall i | 0 <= i < |s| :: d < s[i]
    ensures Increasing([d] + s)
  {
  }

  /** The directions, from `d` upward in N, E, S, W order, toward an
      in-grid unvisited neighbour of `c`. */
  function Neighbours(m: Maze, w: int, h: int, c: Pos, d: int): (r: seq<int>)
    requires Shaped(m, w, h)
    requires 0 <= d <= 4
    ensures forall i | 0 <= i < |r| :: d <= r[i] && CanVisit(m, w, h, c, r[i])
    ensures forall e | d <= e && CanVisit(m, w, h, c, e) :: e in r
    ensures Increasing(r)
    decreases 4 - d
  {
    if d == 4 then []
    else
      var rest := Neighbours(m, w, h, c, d + 1);
      if CanVisit(m, w, h, c, d) then IncreasingCons(d, rest); [d] + rest else rest
  }

  /** Knocks down the wall between `c` and its unvisited neighbour in
      direction `d`, on both cells, and marks the neighbour visited. */
  function Carve(m: Maze, w: int, h: int, c: Pos, d: int): (r: Maze)
    requires Shaped(m, w, h) && InBounds(c, w, h) && CanVisit(m, w, h, c, d)
    ensures Shaped(r, w, h)
    ensures forall q | InBounds(q, w, h) ::
      At(r, q) == if q == c then At(m, c).(walls := Clear(At(m, c).walls, d))
                  else if q == Step(c, d) then At(m, q).(walls := Clear(At(m, q).walls, Opp(d)), visited := true)
                  else At(m, q)
  {
    StepBack(c, d);
    var n := Step(c, d);
    var m1 := SetCell(m, c, At(m, c).(walls := Clear(At(m, c).walls, d)));
    SetCell(m1, n, At(m1, n).(walls := Clear(At(m1, n).walls, Opp(d)), visited := true))
  }

  /** An unvisited cell still has all four walls. */
  ghost predicate Untouched(m: Maze, w: int, h: int) {
    Shaped(m, w, h) &&
    forall p | InBounds(p, w, h) && !At(m, p).visited :: At(m, p).walls == Closed
  }

  /** `unvis` is exactly the set of unvisited in-grid cells. */
  ghost predicate Tracked(m: Maze, w: int, h: int, unvis: set<Pos>) {
    Shaped(m, w, h) &&
    forall p :: p in unvis <==> InBounds(p, w, h) && !At(m, p).visited
  }

  /** The start cell, the current cell and every stacked cell are in the grid and visited. */
  ghost predicate Cursor(m: Maze, w: int, h: int, cur: Pos, stack: seq<Pos>) {
    Shaped(m, w, h) &&
    InBounds(Origin, w, h) && At(m, Origin).visited &&
    InBounds(cur, w, h) && At(m, cur).visited &&
    forall i | 0 <= i < |stack| :: InBounds(stack[i], w, h) && At(m, stack[i]).visited
  }

  /** Every visited cell that still has an unvisited neighbour is the current
      cell or waits on the stack. */
  ghost predicate Frontier(m: Maze, w: int, h: int, cur: Pos, stack: seq<Pos>) {
    Shaped(m, w, h) &&
    forall p, d | InBounds(p, w, h) && At(m, p).visited && CanVisit(m, w, h, p, d) :: p == cur || p in stack
  }

  /** Every visited cell other than (0,0) was entered from a visited parent of
      lower rank through an opening; `link[p]` is the direction of that step. */
  ghost predicate Tree(m: Maze, w: int, h: int, link: map<Pos, int>, rank: map<Pos, nat>) {
    Shaped(m, w, h) &&
    forall p | InBounds(p, w, h) && At(m, p).visited ::
      p in rank &&
      (p != Origin ==>
        p in link && IsDir(link[p]) &&
        var q := Step(p, Opp(link[p]));
        InBounds(q, w, h) && At(m, q).visited && Open(m, w, h, q, link[p]) && Step(q, link[p]) == p &&
        q in rank && rank[q] < rank[p])
  }

  /** The loop invariant of the backtracker. */
  ghost predicate GenInv(m: Maze, w: int, h: int, cur: Pos, stack: seq<Pos>, k: nat,
                         unvis: set<Pos>, edges: set<(Pos, int)>, link: map<Pos, int>, rank: map<Pos, nat>) {
    WellFormed(m, w, h) && Untouched(m, w, h) && Tracked(m, w, h, unvis) &&
    Cursor(m, w, h, cur, stack) && Frontier(m, w, h, cur, stack) &&
    EdgesOk(m, w, h, edges) && Tree(m, w, h, link, rank) &&
    (forall p | p in rank :: rank[p] <= k) &&
    k + |unvis| == w * h - 1 && |edges| == k
  }

  /** The grid the backtracker starts from: all walls up, (0,0) visited. */
  function StartGrid(w: int, h: int): (m: Maze)
    requires w >= 1 && h >= 1
    ensures Shaped(m, w, h)
    ensures forall p | InBounds(p, w, h) :: At(m, p) == Cell(p.x, p.y, p == Origin, Closed)
  {
    SetCell(InitialGrid(w, h), Origin, At(InitialGrid(w, h), Origin).(visited := true))
  }

  /** A configuration of the backtracker: the maze, the current cell, the
      stack of cells to return to, and the number of draws used so far. */
  datatype Dfs = Dfs(maze: Maze, cur: Pos, stack: seq<Pos>, draws: nat)

  /** The first configuration: the start grid, on (0,0), nothing stacked, no draw used. */
  function Start(w: int, h: int): (a: Dfs)
    requires w >= 1 && h >= 1
    ensures Shaped(a.maze, w, h) && At(a.maze, Origin).visited
    ensures a.cur == Origin && a.stack == [] && a.draws == 0
  {
    Dfs(StartGrid(w, h), Origin, [], 0)
  }

  /** `b` is one turn of the backtracker's loop after `a`. With candidates
      left, the next draw picks one of them by index, its wall is knocked
      down, the current cell is pushed and the picked neighbour becomes
      current. Without candidates, the top of the stack is popped and
      becomes current, and the maze stays as it is. */
  ghost predicate DfsStep(w: int, h: int, rolls: seq<nat>, a: Dfs, b: Dfs) {
    Shaped(a.maze, w, h) && InBounds(a.cur, w, h) &&
    var nb := Neighbours(a.maze, w, h, a.cur, 0);
    if |nb| > 0 then
      a.draws < |rolls| &&
      var d := nb[rolls[a.draws] % |nb|];
      b.maze == Carve(a.maze, w, h, a.cur, d) && b.cur == Step(a.cur, d) &&
      b.stack == a.stack + [a.cur] && b.draws == a.draws + 1
    else
      b.maze == a.maze && a.stack == b.stack + [b.cur] && b.draws == a.draws
  }

  /** A turn of the loop has one outcome, and a stopped loop has none. */
  lemma DfsStepUnique(w: int, h: int, rolls: seq<nat>, a: Dfs, b: Dfs, c: Dfs)
    requires DfsStep(w, h, rolls, a, b)
    ensures DfsStep(w, h, rolls, a, c) ==> b == c
    ensures !DfsDone(w, h, a)
  {
    if DfsStep(w, h, rolls, a, c) && Neighbours(a.maze, w, h, a.cur, 0) == [] {
      assert b.stack == a.stack[..|a.stack| - 1] == c.stack;
    }
  }

  /** The loop stops: no candidate around the current cell and nothing stacked. */
  ghost predicate DfsDone(w: int, h: int, a: Dfs) {
    Shaped(a.maze, w, h) && InBounds(a.cur, w, h) &&
    Neighbours(a.maze, w, h, a.cur, 0) == [] && a.stack == []
  }

  /** With candidates left and a draw to spare, a turn carves toward the drawn candidate. */
  lemma CarveIsStep(w: int, h: int, rolls: seq<nat>, a: Dfs)
    requires Shaped(a.maze, w, h) && InBounds(a.cur, w, h) && a.draws < |rolls|
    requires |Neighbours(a.maze, w, h, a.cur, 0)| > 0
    ensures var nb := Neighbours(a.maze, w, h, a.cur, 0); var d := nb[rolls[a.draws] % |nb|];
      DfsStep(w, h, rolls, a, Dfs(Carve(a.maze, w, h, a.cur, d), Step(a.cur, d), a.stack + [a.cur], a.draws + 1))
  {
  }

  /** Without candidates, a turn pops the stack. */
  lemma PopIsStep(w: int, h: int, rolls: seq<nat>, a: Dfs)
    requires Shaped(a.maze, w, h) && InBounds(a.cur, w, h) && |a.stack| > 0
    requires Neighbours(a.maze, w, h, a.cur, 0) == []
    ensures DfsStep(w, h, rolls, a, Dfs(a.maze, a.stack[|a.stack| - 1], a.stack[..|a.stack| - 1], a.draws))
  {
    assert a.stack == a.stack[..|a.stack| - 1] + [a.stack[|a.stack| - 1]];
  }

  /** `trace` lists configurations of the loop, each one turn after the one before. */
  ghost predicate Runs(w: int, h: int, rolls: seq<nat>, trace: seq<Dfs>)
    decreases |trace|
  {
    |trace| > 0 &&
    (|trace| > 1 ==>
      Runs(w, h, rolls, trace[..|trace| - 1]) && DfsStep(w, h, rolls, trace[|trace| - 2], trace[|trace| - 1]))
  }

  /** `trace` is the whole run of the backtracker on `rolls`, from the start
      configuration to the one where the loop stops, and `m` is its maze. */
  ghost predicate Generates(w: int, h: int, rolls: seq<nat>, trace: seq<Dfs>, m: Maze) {
    w >= 1 && h >= 1 && Runs(w, h, rolls, trace) && trace[0] == Start(w, h) &&
    DfsDone(w, h, trace[|trace| - 1]) && trace[|trace| - 1].maze == m
  }

  /** `trace` is the run of the backtracker so far: from the start
      configuration, turn by turn, up to `a`. */
  ghost predicate Traced(w: int, h: int, rolls: seq<nat>, trace: seq<Dfs>, a: Dfs) {
    w >= 1 && h >= 1 && Runs(w, h, rolls, trace) && trace[0] == Start(w, h) && trace[|trace| - 1] == a
  }

  /** A further turn of the loop extends the run. */
  lemma RunsExtend(w: int, h: int, rolls: seq<nat>, trace: seq<Dfs>, a: Dfs, b: Dfs)
    requires Traced(w, h, rolls, trace, a) && DfsStep(w, h, rolls, a, b)
    ensures Traced(w, h, rolls, trace + [b], b)
  {
    assert (trace + [b])[..|trace|] == trace;
  }

  /** Every two neighbouring configurations of a run are one turn apart. */
  lemma {:induction false} RunsAt(w: int, h: int, rolls: seq<nat>, trace: seq<Dfs>, i: nat)
    requires Runs(w, h, rolls, trace) && i + 1 < |trace|
    ensures DfsStep(w, h, rolls, trace[i], trace[i + 1])
    decreases |trace|
  {
    if i + 2 < |trace| {
      var front := trace[..|trace| - 1];
      RunsAt(w, h, rolls, front, i);
      assert front[i] == trace[i] && front[i + 1] == trace[i + 1];
    }
  }

  /** Two runs from the same configuration agree on their `n`-th configuration. */
  lemma {:induction false} RunsAgree(w: int, h: int, rolls: seq<nat>, t1: seq<Dfs>, t2: seq<Dfs>, n: nat)
    requires Runs(w, h, rolls, t1) && Runs(w, h, rolls, t2) && t1[0] == t2[0]
    requires 1 <= n <= |t1| && n <= |t2|
    ensures t1[n - 1] == t2[n - 1]
    decreases n
  {
    if n > 1 {
      RunsAgree(w, h, rolls, t1, t2, n - 1);
      RunsAt(w, h, rolls, t1, n - 2);
      RunsAt(w, h, rolls, t2, n - 2);
      DfsStepUnique(w, h, rolls, t1[n - 2], t1[n - 1], t2[n - 1]);
    }
  }

  /** The draws decide the maze: two complete runs of the backtracker on the
      same grid and the same draws are the same run, with the same maze. */
  lemma GeneratesUnique(w: int, h: int, rolls: seq<nat>, t1: seq<Dfs>, m1: Maze, t2: seq<Dfs>, m2: Maze)
    requires Generates(w, h, rolls, t1, m1) && Generates(w, h, rolls, t2, m2)
    ensures t1 == t2 && m1 == m2
  {
    forall i | 0 <= i < |t1| && i < |t2|
      ensures t1[i] == t2[i]
    {
      RunsAgree(w, h, rolls, t1, t2, i + 1);
    }
    if |t1| < |t2| {
      RunsAt(w, h, rolls, t2, |t1| - 1);
      assert false;
    } else if |t2| < |t1| {
      RunsAt(w, h, rolls, t1, |t2| - 1);
      assert false;
    }
  }

  /** Randomized depth-first backtracking from (0,0). The ghost `trace` is
      the whole run, turn by turn, so the draws decide the maze. Every cell
      ends visited, exactly W*H-1 walls are knocked down, walls stay
      symmetric, the outer boundary stays closed, and every cell is
      reachable from (0,0): the result is a spanning tree of the grid. */
  method GenMaze(w: int, h: int, rolls: seq<nat>)
    returns (m: Maze, draws: nat, ghost edges: set<(Pos, int)>, ghost trace: seq<Dfs>)
    requires w >= 1 && h >= 1
    requires |rolls| >= w * h - 1
    ensures Generates(w, h, rolls, trace, m) && trace[|trace| - 1].draws == draws
    ensures WellFormed(m, w, h)
    ensures forall p | InBounds(p, w, h) :: At(m, p).visited
    ensures draws == w * h - 1
    ensures forall e :: e in edges <==> IsEdgeKey(e) && Open(m, w, h, e.0, e.1)
    ensures |edges| == w * h - 1
    ensures Connected(m, w, h)
  {
    m := StartGrid(w, h);
    var cur := Origin;
    var stack: seq<Pos> := [];
    draws := 0;
    trace := [Start(w, h)];
    ghost var all := AllCells(w, h);
    ghost var unvis := all - {Origin};
    edges := {};
    ghost var link: map<Pos, int> := map[];
    ghost var rank: map<Pos, nat> := map[Origin := 0];
    StartKeepsInv(w, h, m, all, unvis);
    while true
      invariant GenInv(m, w, h, cur, stack, draws, unvis, edges, link, rank)
      invariant Traced(w, h, rolls, trace, Dfs(m, cur, stack, draws))
      decreases unvis, |stack|
    {
      ghost var a := Dfs(m, cur, stack, draws);
      var nb := Neighbours(m, w, h, cur, 0);
      if |nb| > 0 {
        m, cur, stack, draws, unvis, edges, link, rank :=
          CarveStep(m, w, h, rolls, cur, stack, draws, unvis, edges, link, rank, nb);
      } else if |stack| > 0 {
        PopKeepsInv(m, w, h, cur, stack, draws, unvis, edges, link, rank);
        PopIsStep(w, h, rolls, Dfs(m, cur, stack, draws));
        cur := stack[|stack| - 1];
        stack := stack[..|stack| - 1];
      } else {
        Finish(m, w, h, cur, draws, unvis, edges, link, rank);
        break;
      }
      RunsExtend(w, h, rolls, trace, a, Dfs(m, cur, stack, draws));
      trace := trace + [Dfs(m, cur, stack, draws)];
    }
  }

  /** One forward step of the backtracker: pick an unvisited neighbour with
      the next draw, knock down the wall toward it, push the current cell and
      move onto the neighbour. */
  method CarveStep(m: Maze, w: int, h: int, rolls: seq<nat>, cur: Pos, stack: seq<Pos>, k: nat,
                   ghost unvis: set<Pos>, ghost edges: set<(Pos, int)>,
                   ghost link: map<Pos, int>, ghost rank: map<Pos, nat>, nb: seq<int>)
    returns (m': Maze, cur': Pos, stack': seq<Pos>, k': nat,
             ghost unvis': set<Pos>, ghost edges': set<(Pos, int)>,
             ghost link': map<Pos, int>, ghost rank': map<Pos, nat>)
    requires GenInv(m, w, h, cur, stack, k, unvis, edges, link, rank)
    requires |rolls| >= w * h - 1
    requires nb == Neighbours(m, w, h, cur, 0) && |nb| > 0
    ensures GenInv(m', w, h, cur', stack', k', unvis', edges', link', rank')
    ensures unvis' < unvis
    ensures k' == k + 1
    ensures DfsStep(w, h, rolls, Dfs(m, cur, stack, k), Dfs(m', cur', stack', k'))
    ensures k < |rolls| && cur' == Step(cur, nb[rolls[k] % |nb|]) && stack' == stack + [cur]
  {
    DrawAvailable(m, w, h, cur, k, unvis, nb[0]);
    var d := nb[rolls[k] % |nb|];
    var n := Step(cur, d);
    CarveKeepsInv(m, w, h, cur, stack, k, unvis, edges, link, rank, d);
    CarveIsStep(w, h, rolls, Dfs(m, cur, stack, k));
    m' := Carve(m, w, h, cur, d);
    stack' := stack + [cur];
    edges' := edges + {EdgeKey(cur, d)};
    link' := link[n := d];
    rank' := rank[n := k + 1];
    unvis' := unvis - {n};
    k' := k + 1;
    cur' := n;
  }

  /** While some neighbour is unvisited, fewer than W*H-1 draws have been used. */
  lemma DrawAvailable(m: Maze, w: int, h: int, c: Pos, k: nat, unvis: set<Pos>, d: int)
    requires Tracked(m, w, h, unvis) && CanVisit(m, w, h, c, d)
    requires k + |unvis| == w * h - 1
    ensures k < w * h - 1
  {
    assert Step(c, d) in unvis;
  }

  /** When the stack is empty and the current cell has no unvisited
      neighbour, the backtracker's results hold. */
  lemma Finish(m: Maze, w: int, h: int, cur: Pos, k: nat,
               unvis: set<Pos>, edges: set<(Pos, int)>, link: map<Pos, int>, rank: map<Pos, nat>)
    requires GenInv(m, w, h, cur, [], k, unvis, edges, link, rank)
    requires Neighbours(m, w, h, cur, 0) == []
    ensures WellFormed(m, w, h)
    ensures forall p | InBounds(p, w, h) :: At(m, p).visited
    ensures k == w * h - 1
    ensures forall e :: e in edges <==> IsEdgeKey(e) && Open(m, w, h, e.0, e.1)
    ensures |edges| == w * h - 1
    ensures Connected(m, w, h)
  {
    AllVisited(m, w, h, cur);
    assert unvis == {};
    TreeConnected(m, w, h, link, rank);
  }

  /** The invariant holds once (0,0) is marked visited. */
  lemma StartKeepsInv(w: int, h: int, m: Maze, all: set<Pos>, unvis: set<Pos>)
    requires w >= 1 && h >= 1 && m == StartGrid(w, h)
    requires forall p :: p in all <==> InBounds(p, w, h)
    requires |all| == w * h
    requires unvis == all - {Origin}
    ensures GenInv(m, w, h, Origin, [], 0, unvis, {}, map[], map[Origin := 0])
  {
    StartClosed(w, h, m);
    assert Tracked(m, w, h, unvis);
    RemoveOne(all, Origin);
    assert Tree(m, w, h, map[], map[Origin := 0]);
  }

  /** Right after (0,0) is marked visited, every wall is still present. */
  lemma StartClosed(w: int, h: int, m: Maze)
    requires w >= 1 && h >= 1 && m == StartGrid(w, h)
    ensures Shaped(m, w, h)
    ensures forall p | InBounds(p, w, h) :: At(m, p) == Cell(p.x, p.y, p == Origin, Closed)
    ensures WellFormed(m, w, h) && Untouched(m, w, h) && EdgesOk(m, w, h, {})
  {
  }

  /** Clearing two walls only removes walls: every opening stays open. */
  lemma CarveMonotone(m: Maze, w: int, h: int, c: Pos, d: int)
    requires Shaped(m, w, h) && InBounds(c, w, h) && CanVisit(m, w, h, c, d)
    ensures forall q, f | Open(m, w, h, q, f) :: Open(Carve(m, w, h, c, d), w, h, q, f)
    ensures forall q | InBounds(q, w, h) && At(m, q).visited :: At(Carve(m, w, h, c, d), q).visited
  {
  }

  /** Which openings a carve adds: exactly the two sides of the carved wall. */
  lemma CarveOpens(m: Maze, w: int, h: int, c: Pos, d: int)
    requires Shaped(m, w, h) && InBounds(c, w, h) && CanVisit(m, w, h, c, d)
    ensures forall q, f ::
      Open(Carve(m, w, h, c, d), w, h, q, f) <==>
        Open(m, w, h, q, f) || (q == c && f == d) || (q == Step(c, d) && f == Opp(d))
  {
    var r := Carve(m, w, h, c, d);
    StepBack(c, d);
    forall q, f
      ensures Open(r, w, h, q, f) <==> Open(m, w, h, q, f) || (q == c && f == d) || (q == Step(c, d) && f == Opp(d))
    {
      if InBounds(q, w, h) && IsDir(f) && InBounds(Step(q, f), w, h) {
        if q == c {
          assert Step(c, d) != c;
        }
      }
    }
  }

  /** The walls a carve leaves: all but the two sides of the carved wall. */
  lemma CarveWall(m: Maze, w: int, h: int, c: Pos, d: int, p: Pos, e: int)
    requires Shaped(m, w, h) && InBounds(c, w, h) && CanVisit(m, w, h, c, d)
    requires InBounds(p, w, h) && IsDir(e)
    ensures WallAt(Carve(m, w, h, c, d), p, e) ==
      (WallAt(m, p, e) && !(p == c && e == d) && !(p == Step(c, d) && e == Opp(d)))
  {
    StepBack(c, d);
  }

  /** The wall seen from `p` toward `e` and the wall seen back from the
      neighbour are the same wall. */
  lemma SameWall(p: Pos, e: int, c: Pos, d: int)
    requires IsDir(e) && IsDir(d)
    ensures (p == c && e == d) <==> (Step(p, e) == Step(c, d) && Opp(e) == Opp(d))
    ensures (p == Step(c, d) && e == Opp(d)) <==> (Step(p, e) == c && Opp(e) == d)
  {
    StepBack(p, e);
    StepBack(c, d);
  }

  /** A carve keeps walls symmetric: it clears both sides of one wall. */
  lemma CarveSymmetric(m: Maze, w: int, h: int, c: Pos, d: int)
    requires Symmetric(m, w, h) && InBounds(c, w, h) && CanVisit(m, w, h, c, d)
    ensures Symmetric(Carve(m, w, h, c, d), w, h)
  {
    var r := Carve(m, w, h, c, d);
    forall p, e | InBounds(p, w, h) && IsDir(e) && InBounds(Step(p, e), w, h)
      ensures WallAt(r, p, e) == WallAt(r, Step(p, e), Opp(e))
    {
      CarveWall(m, w, h, c, d, p, e);
      CarveWall(m, w, h, c, d, Step(p, e), Opp(e));
      SameWall(p, e, c, d);
    }
  }

  /** A carve never opens the outer boundary: both sides of the carved wall
      face cells inside the grid. */
  lemma CarveBoundary(m: Maze, w: int, h: int, c: Pos, d: int)
    requires BoundaryClosed(m, w, h) && InBounds(c, w, h) && CanVisit(m, w, h, c, d)
    ensures BoundaryClosed(Carve(m, w, h, c, d), w, h)
  {
    var r := Carve(m, w, h, c, d);
    forall p, e | InBounds(p, w, h) && IsDir(e) && !InBounds(Step(p, e), w, h)
      ensures WallAt(r, p, e)
    {
      CarveWall(m, w, h, c, d, p, e);
      SameWall(p, e, c, d);
    }
  }

  /** A carve keeps the maze well formed. */
  lemma CarveWellFormed(m: Maze, w: int, h: int, c: Pos, d: int)
    requires WellFormed(m, w, h) && InBounds(c, w, h) && CanVisit(m, w, h, c, d)
    ensures WellFormed(Carve(m, w, h, c, d), w, h)
  {
    CarveSymmetric(m, w, h, c, d);
    CarveBoundary(m, w, h, c, d);
    CarveLabelled(m, w, h, c, d);
  }

  /** A carve keeps every cell's recorded position. */
  lemma CarveLabelled(m: Maze, w: int, h: int, c: Pos, d: int)
    requires Labelled(m, w, h) && InBounds(c, w, h) && CanVisit(m, w, h, c, d)
    ensures Labelled(Carve(m, w, h, c, d), w, h)
  {
  }

  /** The key of a freshly carved wall was not an opening before. */
  lemma CarveKeyNew(m: Maze, w: int, h: int, c: Pos, d: int, edges: set<(Pos, int)>)
    requires WellFormed(m, w, h) && Untouched(m, w, h) && EdgesOk(m, w, h, edges)
    requires InBounds(c, w, h) && CanVisit(m, w, h, c, d)
    ensures EdgeKey(c, d) !in edges
  {
    var n := Step(c, d);
    StepBack(c, d);
    assert At(m, n).walls == Closed;
    assert WallAt(m, n, Opp(d));
    assert WallAt(m, c, d);
  }

  /** After a carve, adding the carved wall's key keeps `edges` exact. */
  lemma CarveEdges(m: Maze, w: int, h: int, c: Pos, d: int, edges: set<(Pos, int)>)
    requires Shaped(m, w, h) && EdgesOk(m, w, h, edges)
    requires InBounds(c, w, h) && CanVisit(m, w, h, c, d)
    ensures EdgesOk(Carve(m, w, h, c, d), w, h, edges + {EdgeKey(c, d)})
  {
    var r := Carve(m, w, h, c, d);
    var key := EdgeKey(c, d);
    StepBack(c, d);
    CarveOpens(m, w, h, c, d);
    forall e
      ensures e in edges + {key} <==> IsEdgeKey(e) && Open(r, w, h, e.0, e.1)
    {
      if e == key {
        if d == 1 || d == 2 {
          assert Open(r, w, h, c, d);
        } else {
          assert Open(r, w, h, Step(c, d), Opp(d));
        }
      }
    }
  }

  /** A carve keeps the tree of parent links, with the new cell as a child
      of the current one. */
  lemma CarveTree(m: Maze, w: int, h: int, c: Pos, d: int, k: nat, link: map<Pos, int>, rank: map<Pos, nat>)
    requires Shaped(m, w, h) && Tree(m, w, h, link, rank)
    requires InBounds(c, w, h) && At(m, c).visited && CanVisit(m, w, h, c, d)
    requires forall p | p in rank :: rank[p] <= k
    ensures Tree(Carve(m, w, h, c, d), w, h, link[Step(c, d) := d], rank[Step(c, d) := k + 1])
  {
    var r := Carve(m, w, h, c, d);
    var n := Step(c, d);
    var link' := link[n := d];
    var rank' := rank[n := k + 1];
    StepBack(c, d);
    CarveOpens(m, w, h, c, d);
    forall p | InBounds(p, w, h) && At(r, p).visited
      ensures p in rank' &&
        (p != Origin ==>
          p in link' && IsDir(link'[p]) &&
          var q := Step(p, Opp(link'[p]));
          InBounds(q, w, h) && At(r, q).visited && Open(r, w, h, q, link'[p]) && Step(q, link'[p]) == p &&
          q in rank' && rank'[q] < rank'[p])
    {
      if p == n {
        assert Step(n, Opp(d)) == c;
        assert c in rank;
        assert Open(r, w, h, c, d);
      } else {
        assert At(m, p).visited;
        if p != Origin {
          var q := Step(p, Opp(link[p]));
          assert q != n;
          assert Open(r, w, h, q, link[p]);
        }
      }
    }
  }

  /** A carve keeps the bookkeeping of visited cells: unvisited cells stay
      closed, `unvis` loses exactly the new cell, and the cursor moves onto it. */
  lemma CarveVisits(m: Maze, w: int, h: int, c: Pos, stack: seq<Pos>, unvis: set<Pos>, d: int)
    requires Untouched(m, w, h) && Tracked(m, w, h, unvis) && Cursor(m, w, h, c, stack)
    requires CanVisit(m, w, h, c, d)
    ensures Step(c, d) in unvis
    ensures Untouched(Carve(m, w, h, c, d), w, h)
    ensures Tracked(Carve(m, w, h, c, d), w, h, unvis - {Step(c, d)})
    ensures Cursor(Carve(m, w, h, c, d), w, h, Step(c, d), stack + [c])
  {
    StepBack(c, d);
    CarveMonotone(m, w, h, c, d);
  }

  /** A carve keeps the frontier covered: the old cell goes on the stack and
      the new one becomes current. */
  lemma CarveFrontier(m: Maze, w: int, h: int, c: Pos, stack: seq<Pos>, d: int)
    requires Frontier(m, w, h, c, stack) && InBounds(c, w, h)
    requires CanVisit(m, w, h, c, d)
    ensures Frontier(Carve(m, w, h, c, d), w, h, Step(c, d), stack + [c])
  {
    var r := Carve(m, w, h, c, d);
    var n := Step(c, d);
    forall p, e | InBounds(p, w, h) && At(r, p).visited && CanVisit(r, w, h, p, e)
      ensures p == n || p in stack + [c]
    {
      if p != n {
        assert At(m, p).visited && CanVisit(m, w, h, p, e);
      }
    }
  }

  /** A carve step keeps the whole loop invariant. */
  lemma CarveKeepsInv(m: Maze, w: int, h: int, c: Pos, stack: seq<Pos>, k: nat,
                      unvis: set<Pos>, edges: set<(Pos, int)>, link: map<Pos, int>, rank: map<Pos, nat>, d: int)
    requires GenInv(m, w, h, c, stack, k, unvis, edges, link, rank)
    requires CanVisit(m, w, h, c, d)
    ensures Step(c, d) in unvis && k < w * h - 1
    ensures GenInv(Carve(m, w, h, c, d), w, h, Step(c, d), stack + [c], k + 1, unvis - {Step(c, d)},
                   edges + {EdgeKey(c, d)}, link[Step(c, d) := d], rank[Step(c, d) := k + 1])
  {
    CarveWellFormed(m, w, h, c, d);
    CarveVisits(m, w, h, c, stack, unvis, d);
    CarveFrontier(m, w, h, c, stack, d);
    CarveKeyNew(m, w, h, c, d, edges);
    CarveEdges(m, w, h, c, d, edges);
    CarveTree(m, w, h, c, d, k, link, rank);
    var r := Carve(m, w, h, c, d);
    var n := Step(c, d);
    assert WellFormed(r, w, h);
    assert Untouched(r, w, h);
    assert Tracked(r, w, h, unvis - {n});
    assert Cursor(r, w, h, n, stack + [c]);
    assert Frontier(r, w, h, n, stack + [c]);
    assert EdgesOk(r, w, h, edges + {EdgeKey(c, d)});
    assert Tree(r, w, h, link[n := d], rank[n := k + 1]);
    RankBound(rank, rank[n := k + 1], n, k);
    RemoveOne(unvis, n);
    AddNew(edges, EdgeKey(c, d));
  }

  lemma RankBound(rank: map<Pos, nat>, rank': map<Pos, nat>, n: Pos, k: nat)
    requires forall p | p in rank :: rank[p] <= k
    requires rank' == rank[n := k + 1]
    ensures forall p | p in rank' :: rank'[p] <= k + 1
  {
  }

  lemma RemoveOne<T>(s: set<T>, x: T)
    requires x in s
    ensures |s - {x}| == |s| - 1
  {
  }

  lemma AddNew<T>(s: set<T>, x: T)
    requires x !in s
    ensures |s + {x}| == |s| + 1
  {
  }

  /** Backtracking keeps the whole loop invariant. */
  lemma PopKeepsInv(m: Maze, w: int, h: int, cur: Pos, stack: seq<Pos>, k: nat,
                    unvis: set<Pos>, edges: set<(Pos, int)>, link: map<Pos, int>, rank: map<Pos, nat>)
    requires GenInv(m, w, h, cur, stack, k, unvis, edges, link, rank) && |stack| > 0
    requires Neighbours(m, w, h, cur, 0) == []
    ensures GenInv(m, w, h, stack[|stack| - 1], stack[..|stack| - 1], k, unvis, edges, link, rank)
  {
    PopKeepsFrontier(m, w, h, cur, stack);
    PopKeepsCursor(m, w, h, cur, stack);
  }

  /** Backtracking moves the cursor to a visited cell of the stack. */
  lemma PopKeepsCursor(m: Maze, w: int, h: int, cur: Pos, stack: seq<Pos>)
    requires Cursor(m, w, h, cur, stack) && |stack| > 0
    ensures Cursor(m, w, h, stack[|stack| - 1], stack[..|stack| - 1])
  {
    var n := |stack| - 1;
    assert InBounds(stack[n], w, h) && At(m, stack[n]).visited;
    forall i | 0 <= i < n
      ensures InBounds(stack[..n][i], w, h) && At(m, stack[..n][i]).visited
    {
      assert stack[..n][i] == stack[i];
    }
  }

  /** Backtracking from a cell with no unvisited neighbour keeps the frontier covered. */
  lemma PopKeepsFrontier(m: Maze, w: int, h: int, cur: Pos, stack: seq<Pos>)
    requires Frontier(m, w, h, cur, stack) && |stack| > 0
    requires Neighbours(m, w, h, cur, 0) == []
    ensures Frontier(m, w, h, stack[|stack| - 1], stack[..|stack| - 1])
  {
    forall p, d | InBounds(p, w, h) && At(m, p).visited && CanVisit(m, w, h, p, d)
      ensures p == stack[|stack| - 1] || p in stack[..|stack| - 1]
    {
      assert p != cur;
      var i :| 0 <= i < |stack| && stack[i] == p;
      if i < |stack| - 1 {
        assert stack[..|stack| - 1][i] == p;
      }
    }
  }

  /** With an empty stack and nothing left next to the current cell, every
      cell has been visited. */
  lemma AllVisited(m: Maze, w: int, h: int, cur: Pos)
    requires Cursor(m, w, h, cur, []) && Frontier(m, w, h, cur, [])
    requires Neighbours(m, w, h, cur, 0) == []
    ensures forall p | InBounds(p, w, h) :: At(m, p).visited
  {
    forall p | InBounds(p, w, h)
      ensures At(m, p).visited
    {
      ReachedByFrontier(m, w, h, cur, p);
    }
  }

  /** Each cell is visited, by walking from (0,0) east along row 0 and then south. */
  lemma {:induction false} ReachedByFrontier(m: Maze, w: int, h: int, cur: Pos, p: Pos)
    requires Cursor(m, w, h, cur, []) && Frontier(m, w, h, cur, [])
    requires Neighbours(m, w, h, cur, 0) == []
    requires InBounds(p, w, h)
    ensures At(m, p).visited
    decreases p.x + p.y
  {
    if p.y > 0 {
      var q := Pos(p.x, p.y - 1);
      ReachedByFrontier(m, w, h, cur, q);
      assert Step(q, 2) == p;
      if !At(m, p).visited {
        assert CanVisit(m, w, h, q, 2);
      }
    } else if p.x > 0 {
      var q := Pos(p.x - 1, p.y);
      ReachedByFrontier(m, w, h, cur, q);
      assert Step(q, 1) == p;
      if !At(m, p).visited {
        assert CanVisit(m, w, h, q, 1);
      }
    }
  }

  /** Following parent links from any visited cell leads back to (0,0). */
  lemma {:induction false} PathHome(m: Maze, w: int, h: int, link: map<Pos, int>, rank: map<Pos, nat>, p: Pos)
    returns (path: seq<Pos>)
    requires Tree(m, w, h, link, rank)
    requires InBounds(p, w, h) && At(m, p).visited
    ensures IsPath(m, w, h, path) && path[0] == Origin && path[|path| - 1] == p
    decreases rank[p]
  {
    if p == Origin {
      path := [p];
    } else {
      var q := Step(p, Opp(link[p]));
      var prefix := PathHome(m, w, h, link, rank, q);
      path := prefix + [p];
      assert Linked(m, w, h, q, p);
      forall i | 0 <= i < |path| - 1
        ensures Linked(m, w, h, path[i], path[i + 1])
      {
        if i < |prefix| - 1 {
          assert path[i] == prefix[i] && path[i + 1] == prefix[i + 1];
        }
      }
    }
  }

  /** When every cell is visited, the parent links connect the whole maze. */
  lemma TreeConnected(m: Maze, w: int, h: int, link: map<Pos, int>, rank: map<Pos, nat>)
    requires Tree(m, w, h, link, rank)
    requires forall p | InBounds(p, w, h) :: At(m, p).visited
    ensures Connected(m, w, h)
  {
    forall p | InBounds(p, w, h)
      ensures Reachable(m, w, h, p)
    {
      var path := PathHome(m, w, h, link, rank, p);
    }
  }
}
