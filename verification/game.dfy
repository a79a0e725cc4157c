/** The play state of one game and its discrete steps: turning and stepping
    on the grid, the first-person / top view state machine, completion of the
    running animation, win detection, and the menu reset and new game.
    Animations are abstracted to their kind; a frame that does not finish the
    animation changes only the camera, which the model leaves out, so only
    the frame that finishes it (`Complete`) is a step. */
module Game {
  import opened Wrappers
  import opened Grid
  import opened Setup

  /** The camera mode: first person, on the way between views, or top view. */
  datatype ViewMode = Fp | Animating | Top

  /** A discrete camera pose: the player's cell and facing direction. */
  datatype Pose = Pose(cell: Pos, dir: int)

  /** The running animation, reduced to what its completion does: a turn, a
      step into `target`, the flight up to the top view, or the flight back
      down to the pose `back`. */
  datatype Anim = Turn | Move(target: Pos) | ToTop | ToFp(back: Pose)

  /** The game's state. `topButton` and `backButton` are the visibility of
      the two view buttons, which decide whether a click can reach the view
      switch; `wins` counts the win events raised in this game. */
  datatype State = State(level: Level, pos: Pos, dirIdx: int, viewMode: ViewMode,
                         anim: Option<Anim>, saved: Pose,
                         topButton: bool, backButton: bool, wins: nat)

  /** The inputs the game reacts to: arrow keys or pad buttons, the two view
      buttons, the menu button (or a click on the win overlay), and the frame
      in which the running animation reaches its end. */
  datatype Event = TurnLeft | TurnRight | Forward | Backward | TopClick | BackClick | MenuClick | AnimDone

  /** The maze of the state has the size of its level. */
  predicate HasGrid(s: State) {
    Shaped(s.level.maze, s.level.w, s.level.h)
  }

  /** What holds in every state the game reaches. */
  ghost predicate Valid(s: State) {
    LevelOk(s.level) && IsDir(s.dirIdx) && ViewOk(s)
  }

  /** The view mode, the running animation and the back button agree. */
  predicate ViewOk(s: State) {
    (s.viewMode == Animating ==> s.anim.Some? && (s.anim.value.ToTop? || s.anim.value.ToFp?)) &&
    (s.viewMode == Top ==> s.anim.None?) &&
    (s.backButton ==> s.viewMode != Fp && !(s.anim.Some? && s.anim.value.ToFp?)) &&
    (s.anim.Some? && s.anim.value.ToFp? ==> s.anim.value.back == s.saved)
  }

  /** No animation is running and the camera is in first person. */
  predicate Idle(s: State) {
    s.anim.None? && s.viewMode == Fp
  }

  /** Whether the player may step from `p` in direction `dir`: only for the
      four directions, only through an absent wall, and only to a cell
      inside the grid. */
  function CanMove(lv: Level, p: Pos, dir: int): (r: bool)
    requires Shaped(lv.maze, lv.w, lv.h) && InBounds(p, lv.w, lv.h)
    ensures r <==> IsDir(dir) && !WallAt(lv.maze, p, dir) && InBounds(Step(p, dir), lv.w, lv.h)
  {
    var c := At(lv.maze, p);
    if dir == 0 then !c.walls.n && p.y > 0
    else if dir == 1 then !c.walls.e && p.x < lv.w - 1
    else if dir == 2 then !c.walls.s && p.y < lv.h - 1
    else if dir == 3 then !c.walls.w && p.x > 0
    else false
  }

  /** In a well-formed maze a step is possible exactly where the maze has
      an opening. */
  lemma CanMoveIsOpen(lv: Level, p: Pos, dir: int)
    requires WellFormed(lv.maze, lv.w, lv.h) && InBounds(p, lv.w, lv.h)
    ensures CanMove(lv, p, dir) <==> Open(lv.maze, lv.w, lv.h, p, dir)
    ensures CanMove(lv, p, dir) ==> CanMove(lv, Step(p, dir), Opp(dir))
  {
    if CanMove(lv, p, dir) {
      StepBack(p, dir);
    }
  }

  /** A quarter turn to the left (+3) or right (+1), ignored while an
      animation runs or in top view. The turn runs as an animation, which
      holds off further input until it ends. */
  function StartTurn(s: State, left: bool): (r: State)
    ensures s.anim.Some? || s.viewMode == Top ==> r == s
    ensures !(s.anim.Some? || s.viewMode == Top) ==>
      r.anim == Some(Turn) && r.dirIdx == (s.dirIdx + (if left then 3 else 1)) % 4
    ensures IsDir(s.dirIdx) ==> IsDir(r.dirIdx)
    ensures r.pos == s.pos && r.level == s.level && r.viewMode == s.viewMode && r.wins == s.wins
    ensures r.saved == s.saved && r.topButton == s.topButton && r.backButton == s.backButton
    ensures ViewOk(s) ==> ViewOk(r)
  {
    if s.anim.Some? || s.viewMode == Top then s
    else s.(dirIdx := (s.dirIdx + (if left then 3 else 1)) % 4, anim := Some(Turn))
  }

  /** The direction a step forward or back would take. */
  function MoveDir(s: State, forward: bool): (d: int)
    ensures IsDir(s.dirIdx) ==> IsDir(d) && (forward ==> d == s.dirIdx) && (!forward ==> d == Opp(s.dirIdx))
  {
    if forward then s.dirIdx else (s.dirIdx + 2) % 4
  }

  /** A step to the neighbouring cell ahead or behind, started as a move
      animation. Ignored while an animation runs, in top view, or when a
      wall or the grid edge is in the way. A position outside the grid makes
      the game's wall lookup throw before anything changes, so that is
      a no-op too. */
  function StartMove(s: State, forward: bool): (r: State)
    requires HasGrid(s)
    ensures s.anim.Some? || s.viewMode == Top ==> r == s
    ensures r != s <==>
      s.anim.None? && s.viewMode != Top && InBounds(s.pos, s.level.w, s.level.h) &&
      CanMove(s.level, s.pos, MoveDir(s, forward))
    ensures r != s ==> r == s.(anim := Some(Move(Step(s.pos, MoveDir(s, forward)))))
    ensures r.level == s.level && r.dirIdx == s.dirIdx && r.pos == s.pos
    ensures ViewOk(s) ==> ViewOk(r)
  {
    if s.anim.Some? || s.viewMode == Top then s
    else
      var tryDir := MoveDir(s, forward);
      if !InBounds(s.pos, s.level.w, s.level.h) || !CanMove(s.level, s.pos, tryDir) then s
      else s.(anim := Some(Move(Step(s.pos, tryDir))))
  }

  /** Whether `p` is one of the view cells. */
  function OnViewCell(cells: seq<Pos>, p: Pos): (r: bool)
    ensures r <==> exists i | 0 <= i < |cells| :: cells[i] == p
  {
    if |cells| == 0 then false
    else if cells[0] == p then true
    else
      var r := OnViewCell(cells[1..], p);
      assert r ==> exists i | 0 <= i < |cells| :: cells[i] == p by {
        if r {
          var i :| 0 <= i < |cells| - 1 && cells[1..][i] == p;
          assert cells[i + 1] == p;
        }
      }
      assert (exists i | 0 <= i < |cells| :: cells[i] == p) ==> r by {
        if exists i | 0 <= i < |cells| :: cells[i] == p {
          var i :| 0 <= i < |cells| && cells[i] == p;
          assert cells[1..][i - 1] == p;
        }
      }
      r
  }

  /** Starts the flight to the top view unless already there, saving the
      current pose. It does not look at the running animation and replaces
      it, so an unfinished step or turn is dropped. */
  function EnterTopView(s: State): (r: State)
    ensures s.viewMode == Top ==> r == s
    ensures s.viewMode != Top ==>
      r.viewMode == Animating && r.anim == Some(ToTop) && r.saved == Pose(s.pos, s.dirIdx) &&
      !r.topButton && r.backButton
    ensures r.pos == s.pos && r.dirIdx == s.dirIdx && r.level == s.level && r.wins == s.wins
    ensures ViewOk(s) ==> ViewOk(r)
  {
    if s.viewMode == Top then s
    else s.(viewMode := Animating, saved := Pose(s.pos, s.dirIdx), anim := Some(ToTop),
            topButton := false, backButton := true)
  }

  /** Whether the top view is offered at the current position. For a level
      that follows its difficulty's preset: everywhere on easy, never on
      hard, and on medium exactly on a view cell. */
  function OfferTop(s: State): (r: bool)
    ensures s.level.topViewAllowed == PresetOf(s.level.diff).topViewAllowed ==>
      (s.level.diff == Easy ==> r) && (s.level.diff == Hard ==> !r) &&
      (s.level.diff == Medium ==> (r <==> exists i | 0 <= i < |s.level.viewCells| :: s.level.viewCells[i] == s.pos))
  {
    s.level.topViewAllowed || (s.level.diff == Medium && OnViewCell(s.level.viewCells, s.pos))
  }

  /** Starts the flight back to the saved pose, only from the top view. */
  function ExitTopView(s: State): (r: State)
    ensures s.viewMode != Top ==> r == s
    ensures s.viewMode == Top ==>
      r.viewMode == Animating && r.anim == Some(ToFp(s.saved)) && !r.backButton &&
      (r.topButton <==> s.topButton || OfferTop(s))
    ensures r.pos == s.pos && r.dirIdx == s.dirIdx && r.level == s.level && r.wins == s.wins
    ensures ViewOk(s) ==> ViewOk(r)
  {
    if s.viewMode != Top then s
    else s.(viewMode := Animating, anim := Some(ToFp(s.saved)), backButton := false,
            topButton := if OfferTop(s) then true else s.topButton)
  }

  /** The frame in which the running animation ends. A step lands on its
      target cell, raises a win if that is the goal, and on medium shows the
      top button exactly on view cells; the flights end in top view and in
      first person. Nothing happens without an animation. */
  function Complete(s: State): (r: State)
    ensures r.anim.None?
    ensures s.anim.None? ==> r == s
    ensures s.anim.Some? && s.anim.value.Move? ==>
      r.pos == s.anim.value.target &&
      r.wins == s.wins + (if s.anim.value.target == s.level.goal then 1 else 0) &&
      (s.level.diff == Medium ==> (r.topButton <==> OnViewCell(s.level.viewCells, r.pos)))
    ensures !(s.anim.Some? && s.anim.value.Move?) ==> r.pos == s.pos && r.wins == s.wins
    ensures s.anim == Some(ToTop) ==> r.viewMode == Top
    ensures s.anim.Some? && s.anim.value.ToFp? ==> r.viewMode == Fp
    ensures s.anim.Some? && (s.anim.value.Turn? || s.anim.value.Move?) ==> r.viewMode == s.viewMode
    ensures !(s.anim.Some? && s.anim.value.Move? && s.level.diff == Medium) ==> r.topButton == s.topButton
    ensures r.dirIdx == s.dirIdx && r.level == s.level && r.backButton == s.backButton && r.saved == s.saved
    ensures ViewOk(s) ==> ViewOk(r)
  {
    match s.anim
    case None => s
    case Some(a) =>
      match a
      case Turn => s.(anim := None)
      case Move(t) =>
        var won := if t == s.level.goal then 1 else 0;
        var top := if s.level.diff == Medium then OnViewCell(s.level.viewCells, t) else s.topButton;
        s.(pos := t, wins := s.wins + won, topButton := top, anim := None)
      case ToTop => s.(viewMode := Top, anim := None)
      case ToFp(_) => s.(viewMode := Fp, anim := None)
  }

  /** Back to the menu: the view mode returns to first person and both view
      buttons are hidden, but a running animation is left running. */
  function ResetToMenu(s: State): (r: State)
    ensures r.viewMode == Fp && !r.topButton && !r.backButton
    ensures r.anim == s.anim && r.pos == s.pos && r.dirIdx == s.dirIdx && r.level == s.level
    ensures ViewOk(s) ==> ViewOk(r)
  {
    s.(viewMode := Fp, topButton := false, backButton := false)
  }

  /** One input applied to the state. A view button only reacts while it is shown. */
  function Handle(s: State, ev: Event): (r: State)
    requires HasGrid(s)
    ensures HasGrid(r) && r.level == s.level
    ensures ev == TopClick && !s.topButton ==> r == s
    ensures ev == BackClick && !s.backButton ==> r == s
  {
    match ev
    case TurnLeft => StartTurn(s, true)
    case TurnRight => StartTurn(s, false)
    case Forward => StartMove(s, true)
    case Backward => StartMove(s, false)
    case TopClick => if s.topButton then EnterTopView(s) else s
    case BackClick => if s.backButton then ExitTopView(s) else s
    case MenuClick => ResetToMenu(s)
    case AnimDone => Complete(s)
  }

  /** Which operation each input runs; a view button only acts while shown. */
  lemma HandleRuns(s: State)
    requires HasGrid(s)
    ensures Handle(s, TurnLeft) == StartTurn(s, true) && Handle(s, TurnRight) == StartTurn(s, false)
    ensures Handle(s, Forward) == StartMove(s, true) && Handle(s, Backward) == StartMove(s, false)
    ensures s.topButton ==> Handle(s, TopClick) == EnterTopView(s)
    ensures s.backButton ==> Handle(s, BackClick) == ExitTopView(s)
    ensures Handle(s, MenuClick) == ResetToMenu(s) && Handle(s, AnimDone) == Complete(s)
  {
  }

  /** The top button is shown only where the top view is offered. */
  predicate TopGate(s: State) {
    s.topButton ==> OfferTop(s)
  }

  /** Every input keeps the top button to the places that offer the top
      view, so the top view opens only there. */
  lemma HandleKeepsTopGate(s: State, ev: Event)
    requires HasGrid(s) && TopGate(s)
    ensures TopGate(Handle(s, ev))
    ensures ev == TopClick && Handle(s, ev) != s ==> OfferTop(s)
  {
  }

  /** A new game shows the top button exactly when its preset offers the
      top view everywhere, which keeps the top button gated. */
  lemma NewGameTopGate(prev: Option<State>, lv: Level)
    ensures TopGate(NewGame(prev, lv))
  {
  }

  /** A new game on a freshly built level: the player stands on (0,0)
      facing east and the top button shows when the preset allows the top
      view everywhere. The view mode, the running animation, the saved pose
      and the back button carry over from the previous game (`prev`), or
      take their initial values before the first game. */
  function NewGame(prev: Option<State>, lv: Level): (r: State)
    ensures r.level == lv && r.pos == Origin && r.dirIdx == 1 && r.wins == 0
    ensures r.topButton == lv.topViewAllowed
    ensures prev.None? ==> Idle(r) && !r.backButton
    ensures prev.Some? ==>
      r.viewMode == prev.value.viewMode && r.anim == prev.value.anim && r.backButton == prev.value.backButton &&
      r.saved == prev.value.saved
    ensures LevelOk(lv) && (prev.None? || Valid(prev.value)) ==> Valid(r)
  {
    match prev
    case None => State(lv, Origin, 1, Fp, None, Pose(Origin, 0), lv.topViewAllowed, false, 0)
    case Some(p) => State(lv, Origin, 1, p.viewMode, p.anim, p.saved, lv.topViewAllowed, p.backButton, 0)
  }

  /** Starting a game from the menu: build a level from the supplied draws
      and place the player, carrying over what the previous game leaves
      running. None when the draws run out. */
  method StartGame(prev: Option<State>, diff: Difficulty, rolls: seq<nat>)
    returns (r: Option<State>, ghost trace: seq<MazeGen.Dfs>)
    requires prev.None? || Valid(prev.value)
    ensures r.Some? <==> DrawsSuffice(diff, rolls)
    ensures r.Some? ==> Valid(r.value) && r.value.level.diff == diff && r.value.pos == Origin && r.value.dirIdx == 1
    ensures r.Some? ==> r.value == NewGame(prev, r.value.level) && BuiltFrom(diff, rolls, trace, r.value.level)
  {
    var lv;
    lv, trace := BuildLevel(diff, rolls);
    if lv.None? {
      return None, trace;
    }
    r := Some(NewGame(prev, lv.value));
  }

  /** Every input keeps the level, the heading and the view consistent. */
  lemma HandleKeepsValid(s: State, ev: Event)
    requires Valid(s)
    ensures Valid(Handle(s, ev))
  {
    var r := Handle(s, ev);
    assert r.level == s.level && IsDir(r.dirIdx) && ViewOk(r);
  }

  /** The player stands on a cell of the grid and a running step leads
      through an opening of the maze to a neighbouring cell. */
  ghost predicate Settled(s: State) {
    Valid(s) && InBounds(s.pos, s.level.w, s.level.h) &&
    (s.anim.Some? && s.anim.value.Move? ==>
      Linked(s.level.maze, s.level.w, s.level.h, s.pos, s.anim.value.target))
  }

  /** Every input keeps the player on the grid and moves it only through
      openings, one cell at a time. */
  lemma HandleKeepsSettled(s: State, ev: Event)
    requires Settled(s)
    ensures Settled(Handle(s, ev))
    ensures Handle(s, ev).pos == s.pos ||
      Linked(s.level.maze, s.level.w, s.level.h, s.pos, Handle(s, ev).pos)
  {
    var r := Handle(s, ev);
    if ev == Forward || ev == Backward {
      MoveKeepsSettled(s, ev == Forward);
    } else if ev == AnimDone {
      CompleteKeepsSettled(s);
    } else {
      assert r.pos == s.pos && (r.anim == s.anim || !(r.anim.Some? && r.anim.value.Move?));
      SettledFrom(s, r);
    }
  }

  /** A state with the same level, position and step as a settled one, a
      heading and a consistent view, is settled. */
  lemma SettledFrom(s: State, r: State)
    requires Settled(s) && r.level == s.level && r.pos == s.pos && IsDir(r.dirIdx) && ViewOk(r)
    requires r.anim == s.anim || !(r.anim.Some? && r.anim.value.Move?)
    ensures Settled(r)
  {
  }

  /** Starting a step keeps the state settled: the step goes through an opening. */
  lemma MoveKeepsSettled(s: State, forward: bool)
    requires Settled(s)
    ensures Settled(StartMove(s, forward))
  {
    var r := StartMove(s, forward);
    if r != s {
      var d := MoveDir(s, forward);
      assert Open(s.level.maze, s.level.w, s.level.h, s.pos, d);
      assert Linked(s.level.maze, s.level.w, s.level.h, s.pos, r.anim.value.target);
      assert Valid(r);
    }
  }

  /** Ending a step lands on a cell of the grid. */
  lemma CompleteKeepsSettled(s: State)
    requires Settled(s)
    ensures Settled(Complete(s))
    ensures Complete(s).pos == s.pos || Linked(s.level.maze, s.level.w, s.level.h, s.pos, Complete(s).pos)
  {
    var r := Complete(s);
    if s.anim.Some? && s.anim.value.Move? {
      var d :| IsDir(d) && Open(s.level.maze, s.level.w, s.level.h, s.pos, d) && Step(s.pos, d) == r.pos;
      assert InBounds(r.pos, s.level.w, s.level.h);
    }
  }

  /** A new game starts settled unless the previous game left a step running. */
  lemma NewGameSettled(prev: Option<State>, lv: Level)
    requires LevelOk(lv)
    requires prev.None? || (Valid(prev.value) && !(prev.value.anim.Some? && prev.value.anim.value.Move?))
    ensures Settled(NewGame(prev, lv))
  {
  }

  /** Moving, turning and the end of a turn or step never touch the view
      mode; only the view buttons, the menu and the end of a flight do. */
  lemma ViewModeOnlyByViewEvents(s: State, ev: Event)
    requires HasGrid(s)
    requires ev in {TurnLeft, TurnRight, Forward, Backward}
    ensures Handle(s, ev).viewMode == s.viewMode
    ensures s.anim.Some? || s.viewMode == Top ==> Handle(s, ev) == s
  {
  }

  /** A started turn holds off every turn and step until its animation ends. */
  lemma TurnBlocksInput(s: State, left: bool)
    requires HasGrid(s) && Idle(s)
    ensures var t := StartTurn(s, left);
      t.anim == Some(Turn) &&
      StartTurn(t, true) == t && StartTurn(t, false) == t &&
      StartMove(t, true) == t && StartMove(t, false) == t
  {
  }

  /** A left arrow, its animation frame, a right arrow and its animation
      frame face the start direction again, on the same cell. */
  lemma {:induction false} TurnLeftRight(s: State)
    requires HasGrid(s) && Idle(s) && IsDir(s.dirIdx)
    ensures var r := Handle(Handle(Handle(Handle(s, TurnLeft), AnimDone), TurnRight), AnimDone);
      r.dirIdx == s.dirIdx && r.pos == s.pos && Idle(r)
  {
    var a := Handle(Handle(s, TurnLeft), AnimDone);
    assert a.dirIdx == (s.dirIdx + 3) % 4;
    assert Idle(a);
  }

  /** Turning repeatedly in one direction cycles through the four headings:
      the heading after k completed quarter turns. */
  function Turns(s: State, left: bool, k: nat): (r: State)
    requires HasGrid(s) && Idle(s)
    ensures Idle(r) && r.pos == s.pos && r.level == s.level && r.wins == s.wins
    decreases k
  {
    if k == 0 then s else Turns(Handle(Handle(s, TurnKey(left)), AnimDone), left, k - 1)
  }

  /** The arrow key that turns left or right. */
  function TurnKey(left: bool): (ev: Event)
    ensures ev == TurnLeft || ev == TurnRight
    ensures left <==> ev == TurnLeft
  {
    if left then TurnLeft else TurnRight
  }

  /** After k quarter turns the heading has advanced by k (right) or
      k times three (left), modulo four; in particular four turns either
      way restore the heading. */
  lemma {:induction false} TurnsHeading(s: State, left: bool, k: nat)
    requires HasGrid(s) && Idle(s) && IsDir(s.dirIdx)
    ensures Turns(s, left, k).dirIdx == (s.dirIdx + k * (if left then 3 else 1)) % 4
    decreases k
  {
    if k > 0 {
      var a := Handle(Handle(s, TurnKey(left)), AnimDone);
      TurnsHeading(a, left, k - 1);
      var c := if left then 3 else 1;
      assert a.dirIdx == (s.dirIdx + c) % 4;
      assert (k - 1) * c + c == k * c;
      ModAdd(s.dirIdx + c, (k - 1) * c);
    }
  }

  /** Reducing a summand modulo four first does not change the sum modulo four. */
  lemma ModAdd(x: int, y: int)
    ensures (x % 4 + y) % 4 == (x + y) % 4
  {
    var q := x / 4;
    assert x + y == (x % 4 + y) + 4 * q;
    ModShift(x % 4 + y, q);
  }

  /** Adding a multiple of four does not change a value modulo four. */
  lemma {:induction false} ModShift(z: int, q: int)
    ensures (z + 4 * q) % 4 == z % 4
    decreases if q < 0 then -q else q
  {
    if q > 0 {
      ModShift(z, q - 1);
      assert z + 4 * q == (z + 4 * (q - 1)) + 4;
    } else if q < 0 {
      ModShift(z, q + 1);
      assert z + 4 * q == (z + 4 * (q + 1)) - 4;
    }
  }

  /** Four quarter turns the same way face the start direction again. */
  lemma FourTurns(s: State, left: bool)
    requires HasGrid(s) && Idle(s) && IsDir(s.dirIdx)
    ensures Turns(s, left, 4).dirIdx == s.dirIdx
  {
    TurnsHeading(s, left, 4);
  }

  /** The arrow key that steps forward or back. */
  function StepKey(forward: bool): (ev: Event)
    ensures ev == Forward || ev == Backward
    ensures forward <==> ev == Forward
  {
    if forward then Forward else Backward
  }

  /** An up or down arrow that is allowed, with its animation frame, ends
      on the neighbouring cell through an opening; a win is raised exactly
      when that cell is the goal. */
  lemma MoveThenComplete(s: State, forward: bool)
    requires WellFormed(s.level.maze, s.level.w, s.level.h) && InBounds(s.pos, s.level.w, s.level.h)
    requires IsDir(s.dirIdx) && Idle(s)
    requires CanMove(s.level, s.pos, MoveDir(s, forward))
    ensures var r := Handle(Handle(s, StepKey(forward)), AnimDone);
      r.pos == Step(s.pos, MoveDir(s, forward)) &&
      Open(s.level.maze, s.level.w, s.level.h, s.pos, MoveDir(s, forward)) &&
      r.wins == (if r.pos == s.level.goal then s.wins + 1 else s.wins) &&
      Idle(r) && r.dirIdx == s.dirIdx
  {
    var d := MoveDir(s, forward);
    var m := StartMove(s, forward);
    assert m == s.(anim := Some(Move(Step(s.pos, d))));
    HandleRuns(s);
    HandleRuns(m);
    CanMoveIsOpen(s.level, s.pos, d);
    var r := Complete(m);
    assert r.pos == Step(s.pos, d) && r.wins == (if r.pos == s.level.goal then s.wins + 1 else s.wins);
  }

  /** A blocked step changes nothing, not even after the animation frame. */
  lemma BlockedMove(s: State, forward: bool)
    requires Settled(s) && Idle(s)
    requires !CanMove(s.level, s.pos, MoveDir(s, forward))
    ensures StartMove(s, forward) == s
    ensures Complete(StartMove(s, forward)) == s
  {
  }

  /** A click on the shown top button, its flight, a click on the back
      button and its flight return from an idle first-person state to the
      same cell and heading in first person, with the back button hidden
      again. */
  lemma TopRoundTrip(s: State)
    requires Valid(s) && Idle(s) && s.topButton
    ensures var up := Handle(Handle(s, TopClick), AnimDone);
      up.viewMode == Top && up.backButton && !up.topButton && Valid(up) &&
      var down := Handle(Handle(up, BackClick), AnimDone);
      down.pos == s.pos && down.dirIdx == s.dirIdx && Idle(down) && !down.backButton &&
      (down.topButton <==> OfferTop(s)) && down.wins == s.wins
  {
    HandleRuns(s);
    var a := EnterTopView(s);
    HandleRuns(a);
    var up := Complete(a);
    HandleRuns(up);
    HandleRuns(ExitTopView(up));
  }

  /** The win is not latched: from the goal, a step away and a step back
      raise a second win. */
  lemma WinRepeats(s: State, d: int)
    requires Settled(s) && Idle(s) && s.pos == s.level.goal
    requires IsDir(d) && CanMove(s.level, s.pos, d)
    ensures var back := Handle(Handle(Handle(Handle(s.(dirIdx := d), Forward), AnimDone), Backward), AnimDone);
      back.pos == s.level.goal && back.wins == s.wins + 1
  {
    var t := s.(dirIdx := d);
    MoveThenComplete(t, true);
    var away := Handle(Handle(t, Forward), AnimDone);
    HandleKeepsSettled(t, Forward);
    HandleKeepsSettled(Handle(t, Forward), AnimDone);
    StepBack(s.pos, d);
    CanMoveIsOpen(s.level, s.pos, d);
    assert MoveDir(away, false) == Opp(d);
    MoveThenComplete(away, false);
  }

  /** The menu does not stop a flight to the top view. Whether it ends on
      the menu or during the next game, that game sits in the top view with
      the back button hidden: every input except the menu leaves it there
      unchanged. */
  lemma StaleTopFlightLocksView(s: State, lv: Level)
    requires s.anim == Some(ToTop) && Shaped(lv.maze, lv.w, lv.h)
    ensures var g := Complete(NewGame(Some(ResetToMenu(s)), lv));
      g.viewMode == Top && !g.backButton &&
      forall ev | ev != MenuClick :: Handle(g, ev) == g
    ensures NewGame(Some(Complete(ResetToMenu(s))), lv) == Complete(NewGame(Some(ResetToMenu(s)), lv))
  {
    var g := Complete(NewGame(Some(ResetToMenu(s)), lv));
    forall ev | ev != MenuClick
      ensures Handle(g, ev) == g
    {
    }
  }

  /** A step that ends while the menu is shown still lands on its target
      and raises a win when that is the goal; the next game puts the player
      back on (0,0) with no wins. */
  lemma StepEndsOnMenu(s: State, lv: Level)
    requires s.anim.Some? && s.anim.value.Move?
    ensures var m := Complete(ResetToMenu(s));
      m.pos == s.anim.value.target &&
      m.wins == s.wins + (if s.anim.value.target == s.level.goal then 1 else 0) &&
      Idle(m) && !m.backButton
    ensures var g := NewGame(Some(Complete(ResetToMenu(s))), lv);
      g.pos == Origin && g.wins == 0 && Idle(g)
  {
  }

  /** The menu does not stop a running step either. If it ends during the
      next game, the player lands on the old target cell: on a smaller maze
      that cell lies outside the grid, and from there no step can start. */
  lemma StaleStepLeavesGrid(s: State, lv: Level)
    requires s.anim.Some? && s.anim.value.Move? && LevelOk(lv)
    requires !InBounds(s.anim.value.target, lv.w, lv.h)
    ensures var g := Complete(NewGame(Some(ResetToMenu(s)), lv));
      !InBounds(g.pos, lv.w, lv.h) && g.wins == 0 &&
      forall forward: bool :: Complete(StartMove(g, forward)) == g
  {
  }

  /** A running step that ends during the next game on that game's goal
      cell raises a win at once, without a single step of the new game. */
  lemma StaleStepWins(s: State, lv: Level)
    requires s.anim.Some? && s.anim.value.Move? && LevelOk(lv)
    requires s.anim.value.target == lv.goal
    ensures var g := Complete(NewGame(Some(ResetToMenu(s)), lv));
      g.pos == lv.goal && g.wins == 1
  {
  }
}
