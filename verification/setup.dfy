/** What a new game fixes once per maze: the difficulty preset, the carved
    maze, the goal corner and, on medium difficulty, the cells that enable
    the top view. Random draws come from a supplied sequence `rolls`; the
    k-th draw of `Math.random()*n|0` is `rolls[k] % n`. */
module Setup {
  import opened Wrappers
  import opened Grid
  import MazeGen

  datatype Difficulty = Easy | Medium | Hard

  /** Maze size and whether the top view is available everywhere. */
  datatype Preset = Preset(w: int, h: int, topViewAllowed: bool)

  /** The difficulty table of the game start: easy 11x11 with the top view
      always available, medium 17x17 and hard 25x25 without it. */
  function PresetOf(diff: Difficulty): (p: Preset)
    ensures p.w == p.h && p.w % 2 == 1 && 11 <= p.w <= 25
    ensures p.topViewAllowed <==> diff == Easy
  {
    match diff
    case Easy => Preset(11, 11, true)
    case Medium => Preset(17, 17, false)
    case Hard => Preset(25, 25, false)
  }

  /** The four corners in the order the goal is drawn from: (0,0) first,
      then the three corners a goal may occupy, all in the grid. */
  function Corners(w: int, h: int): (c: seq<Pos>)
    ensures |c| == 4 && c[0] == Origin
    ensures forall i | 1 <= i < 4 :: IsGoalCorner(c[i], w, h)
    ensures w >= 1 && h >= 1 ==> forall i | 0 <= i < 4 :: InBounds(c[i], w, h)
    ensures forall g | IsGoalCorner(g, w, h) :: g in c[1..]
  {
    [Pos(0, 0), Pos(w - 1, 0), Pos(0, h - 1), Pos(w - 1, h - 1)]
  }

  predicate IsGoalCorner(g: Pos, w: int, h: int) {
    g == Pos(w - 1, 0) || g == Pos(0, h - 1) || g == Pos(w - 1, h - 1)
  }

  /** Rejection sampling of the goal: draw a corner from draw `k` on, and
      draw again while it is (0,0). Returns the goal and the index of the
      next unused draw, or None when the supplied draws run out first. The
      goal is the corner of the first draw not landing on (0,0). */
  function ChooseGoal(w: int, h: int, rolls: seq<nat>, k: nat): (r: Option<(Pos, nat)>)
    ensures r.Some? ==>
      var (g, next) := r.value;
      k < next <= |rolls| &&
      g == Corners(w, h)[rolls[next - 1] % 4] && g != Origin && IsGoalCorner(g, w, h) &&
      forall i | k <= i < next - 1 :: Corners(w, h)[rolls[i] % 4] == Origin
    ensures r.None? <==> forall i | k <= i < |rolls| :: Corners(w, h)[rolls[i] % 4] == Origin
    decreases |rolls| - k
  {
    if k >= |rolls| then None
    else
      var g := Corners(w, h)[rolls[k] % 4];
      if g == Origin then ChooseGoal(w, h, rolls, k + 1) else Some((g, k + 1))
  }

  /** `Math.round(Math.sqrt(a) / 6)` in exact arithmetic: the `k` with
      6k - 3 <= sqrt(a) < 6k + 3, rounding halves upward. */
  function RoundSqrtDiv6(a: nat): (k: nat)
    ensures k == 0 || (6 * k - 3) * (6 * k - 3) <= a
    ensures a < (6 * k + 3) * (6 * k + 3)
  {
    RoundFrom(a, 0)
  }

  /** Search upward from `k` for the rounded value. */
  function RoundFrom(a: nat, k: nat): (r: nat)
    requires k == 0 || (6 * k - 3) * (6 * k - 3) <= a
    ensures r == 0 || (6 * r - 3) * (6 * r - 3) <= a
    ensures a < (6 * r + 3) * (6 * r + 3)
    decreases a - k
  {
    if (6 * k + 3) * (6 * k + 3) <= a then
      assert k < (6 * k + 3) * (6 * k + 3);
      RoundFrom(a, k + 1)
    else k
  }

  /** The number of view cells on medium difficulty: max(2, round(sqrt(W*H)/6)). */
  function ViewCellCount(w: nat, h: nat): (n: nat)
    ensures n >= 2
  {
    var r := RoundSqrtDiv6(w * h);
    if r > 2 then r else 2
  }

  /** `n` cells, each drawn column first, then row, from draw `k` on; None
      when fewer than 2n draws remain. Cells may repeat. */
  function SampleCells(w: int, h: int, rolls: seq<nat>, k: nat, n: nat): (r: Option<seq<Pos>>)
    requires w >= 1 && h >= 1
    ensures r.Some? <==> n == 0 || k + 2 * n <= |rolls|
    ensures r.Some? ==>
      |r.value| == n &&
      forall i | 0 <= i < n ::
        r.value[i] == Pos(rolls[k + 2 * i] % w, rolls[k + 2 * i + 1] % h) && InBounds(r.value[i], w, h)
    decreases n
  {
    if n == 0 then Some([])
    else if k + 2 > |rolls| then None
    else
      var rest :- SampleCells(w, h, rolls, k + 2, n - 1);
      Some([Pos(rolls[k] % w, rolls[k + 1] % h)] + rest)
  }

  /** The view cells of a new maze: none unless the difficulty is medium. */
  function ViewCells(diff: Difficulty, w: int, h: int, rolls: seq<nat>, k: nat): (r: Option<seq<Pos>>)
    requires w >= 1 && h >= 1
    ensures diff != Medium ==> r == Some([])
    ensures diff == Medium && r.Some? ==>
      |r.value| == ViewCellCount(w, h) && forall i | 0 <= i < |r.value| :: InBounds(r.value[i], w, h)
  {
    if diff == Medium then SampleCells(w, h, rolls, k, ViewCellCount(w, h)) else Some([])
  }

  /** On the medium preset there are three view cells: sqrt(289)/6 rounds to 3. */
  lemma MediumViewCellCount()
    ensures ViewCellCount(17, 17) == 3
  {
    assert RoundFrom(289, 3) == 3;
    assert RoundFrom(289, 0) == 3;
  }

  /** Everything a new maze fixes. */
  datatype Level = Level(diff: Difficulty, w: int, h: int, topViewAllowed: bool,
                         maze: Maze, goal: Pos, viewCells: seq<Pos>)

  /** A level as a new game builds it. */
  ghost predicate LevelOk(lv: Level) {
    var p := PresetOf(lv.diff);
    lv.w == p.w && lv.h == p.h && lv.topViewAllowed == p.topViewAllowed &&
    IsGoalCorner(lv.goal, lv.w, lv.h) && lv.goal != Origin &&
    (lv.diff != Medium ==> lv.viewCells == []) &&
    (lv.diff == Medium ==> |lv.viewCells| == ViewCellCount(lv.w, lv.h)) &&
    (forall i | 0 <= i < |lv.viewCells| :: InBounds(lv.viewCells[i], lv.w, lv.h)) &&
    WellFormed(lv.maze, lv.w, lv.h) && SpanningTree(lv.maze, lv.w, lv.h)
  }

  /** The supplied draws last through the maze, the goal and the view cells. */
  predicate DrawsSuffice(diff: Difficulty, rolls: seq<nat>) {
    var p := PresetOf(diff);
    var n := p.w * p.h - 1;
    |rolls| >= n && DrawGoalAndCells(diff, rolls, n).Some?
  }

  /** The draws after the maze: the goal corner, then the view cells, from
      draw `k` on. None when the draws run out before either is complete. */
  function DrawGoalAndCells(diff: Difficulty, rolls: seq<nat>, k: nat): (r: Option<(Pos, seq<Pos>)>)
    ensures var p := PresetOf(diff); var g := ChooseGoal(p.w, p.h, rolls, k);
      r.Some? <==> g.Some? && ViewCells(diff, p.w, p.h, rolls, g.value.1).Some?
    ensures r.Some? ==> var p := PresetOf(diff); var (goal, cells) := r.value;
      IsGoalCorner(goal, p.w, p.h) && goal != Origin &&
      (diff != Medium ==> cells == []) &&
      (diff == Medium ==> |cells| == ViewCellCount(p.w, p.h)) &&
      forall i | 0 <= i < |cells| :: InBounds(cells[i], p.w, p.h)
    ensures r.Some? ==> var p := PresetOf(diff); var g := ChooseGoal(p.w, p.h, rolls, k).value;
      r.value.0 == g.0 && ViewCells(diff, p.w, p.h, rolls, g.1) == Some(r.value.1)
  {
    var p := PresetOf(diff);
    var goal :- ChooseGoal(p.w, p.h, rolls, k);
    var cells :- ViewCells(diff, p.w, p.h, rolls, goal.1);
    Some((goal.0, cells))
  }

  /** The generated maze with what a level needs to know about it: the
      ghost `trace` is the backtracker's run on the draws. */
  method CarveMaze(w: int, h: int, rolls: seq<nat>) returns (m: Maze, used: nat, ghost trace: seq<MazeGen.Dfs>)
    requires w >= 1 && h >= 1 && |rolls| >= w * h - 1
    ensures WellFormed(m, w, h) && SpanningTree(m, w, h) && used == w * h - 1
    ensures MazeGen.Generates(w, h, rolls, trace, m) && trace[|trace| - 1].draws == used
  {
    ghost var edges;
    m, used, edges, trace := MazeGen.GenMaze(w, h, rolls);
    assert EdgesOk(m, w, h, edges);
  }

  /** `lv` is the level the draws produce on difficulty `diff`: the maze is
      the backtracker's run `trace` on them, and the goal and the view cells
      are drawn from the first draw the maze leaves unused. */
  ghost predicate BuiltFrom(diff: Difficulty, rolls: seq<nat>, trace: seq<MazeGen.Dfs>, lv: Level) {
    var p := PresetOf(diff);
    var n := p.w * p.h - 1;
    var placed := DrawGoalAndCells(diff, rolls, n);
    lv.diff == diff && MazeGen.Generates(p.w, p.h, rolls, trace, lv.maze) &&
    trace[|trace| - 1].draws == n &&
    placed.Some? && lv.goal == placed.value.0 && lv.viewCells == placed.value.1
  }

  /** The draws decide the level: two levels of the same difficulty built
      from the same draws are equal. */
  lemma BuiltFromUnique(diff: Difficulty, rolls: seq<nat>, t1: seq<MazeGen.Dfs>, l1: Level,
                        t2: seq<MazeGen.Dfs>, l2: Level)
    requires BuiltFrom(diff, rolls, t1, l1) && LevelOk(l1)
    requires BuiltFrom(diff, rolls, t2, l2) && LevelOk(l2)
    ensures l1 == l2
  {
    var p := PresetOf(diff);
    MazeGen.GeneratesUnique(p.w, p.h, rolls, t1, l1.maze, t2, l2.maze);
  }

  /** Builds the maze, then draws the goal, then the view cells, in the
      order a new game does. None when the supplied draws run out. */
  method BuildLevel(diff: Difficulty, rolls: seq<nat>) returns (r: Option<Level>, ghost trace: seq<MazeGen.Dfs>)
    ensures r.Some? <==> DrawsSuffice(diff, rolls)
    ensures r.Some? ==> LevelOk(r.value) && BuiltFrom(diff, rolls, trace, r.value)
  {
    var p := PresetOf(diff);
    var n := p.w * p.h - 1;
    if |rolls| < n {
      return None, [];
    }
    var maze, used;
    maze, used, trace := CarveMaze(p.w, p.h, rolls);
    r := Place(diff, maze, rolls, used);
  }

  /** Around a carved maze of the preset's size, places the goal and the
      view cells drawn from draw `k` on. None when the draws run out;
      otherwise a level as a new game builds it. */
  function Place(diff: Difficulty, maze: Maze, rolls: seq<nat>, k: nat): (r: Option<Level>)
    requires var p := PresetOf(diff); WellFormed(maze, p.w, p.h) && SpanningTree(maze, p.w, p.h)
    ensures r.Some? <==> DrawGoalAndCells(diff, rolls, k).Some?
    ensures r.Some? ==> LevelOk(r.value) && r.value.diff == diff && r.value.maze == maze
    ensures r.Some? ==> var placed := DrawGoalAndCells(diff, rolls, k).value;
      r.value.goal == placed.0 && r.value.viewCells == placed.1
  {
    var p := PresetOf(diff);
    var placed :- DrawGoalAndCells(diff, rolls, k);
    Some(Level(diff, p.w, p.h, p.topViewAllowed, maze, placed.0, placed.1))
  }
}
