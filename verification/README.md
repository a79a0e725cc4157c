# FPV maze: a Dafny model of the game logic and the score server

This project models the discrete core of a first-person maze game and of
its score server. It covers the following parts:

- **Maze generation.** `genMaze` is a randomized depth-first backtracker over
  a W×H grid of cells, and each cell has N/E/S/W wall flags (`MazeGen`, on
  the types of `Grid`).
- **Per-maze setup.** This is the difficulty preset, the goal corner drawn by
  rejection sampling, and on medium difficulty the "view cells" that offer
  the top view. The player starts on (0,0) facing east (`Setup`).
- **Coordinates.** Cells map to world points on the floor. The cell size is
  6, so every centre is an exact integer (`Coords`).
- **Play.** Turning and stepping one cell at a time, and the
  first-person / top-view state machine. Also the frame that finishes the
  running animation: it lands a step, raises the win and ends a flight. Then
  the menu reset and a new game (`Game`).
- **Score server.** It validates and appends a submitted score. The listing
  returns the ten fastest scores, ascending, with ties in submission order
  (`Leaderboard`).

Randomness is a supplied sequence of draws `rolls: seq<nat>`. The k-th call
of `Math.random()*n|0` reads `rolls[k] % n`, so every choice the game can
make is reachable. The maze consumes exactly W·H−1 draws. The goal corner is
drawn next, then the view cells. The score file and the request bodies are
plain values. Animations are reduced to their kind: a turn, a step to a
target cell, the flight up, or the flight down to a saved pose. The one step
that matters is the frame in which the animation ends (`Game.Complete`).

The model keeps these behaviours of the code, and lemmas prove each one:

- Entering the top view does not wait for a running turn or step; it replaces it.
- The menu resets the view mode but not the running animation. The frame
  loop keeps running while the menu is shown, so an animation (180 to 400 ms)
  usually ends there. A step that ends on the menu still lands and raises a
  win if its target is the old goal; the next game then puts the player
  back on (0,0). If the next game starts before the animation ends, the
  animation ends inside that game:
  - a flight up leaves the new game stuck in the top view with no back
    button (`Game.StaleTopFlightLocksView`). A flight up that ends on the
    menu gives the same lock;
  - a step lands on the old target cell, which can lie outside a smaller
    maze (`Game.StaleStepLeavesGrid`) or be the new goal
    (`Game.StaleStepWins`).
- The win is not latched: stepping onto the goal again raises it again.
- View cells are drawn independently and may repeat.

Three more facts about the game shape the model:

- the top view never returns by itself: only the menu or the back button leaves it;
- a view cell only shows the top button, only on medium difficulty, and the
  view cells are drawn uniformly at random;
- movement is one grid step at a time, with no continuous collision.

## Model

| member | source | states |
|---|---|---|
| Grid.Opp | game.js:80 | The opposite of a direction is another direction whose column and row steps are the negated ones |
| Grid.Step | game.js:80 | A step moves to one of the four orthogonal neighbours, by the column and row steps of its direction |
| Grid.StepBack | game.js:80 | Stepping one way and then the opposite way returns to the start cell, and the opposite of the opposite is the direction itself |
| Grid.Clear | game.js:91 | Clearing the wall in direction d removes that wall and keeps the other three |
| Grid.AllCells | game.js:83 | The grid has exactly W·H cells: the set of in-grid positions has that size |
| MazeGen.InitialGrid | game.js:83 | Every cell starts unvisited, records its own position, and has all four walls |
| MazeGen.Neighbours | game.js:87 | The candidate list holds exactly the directions toward an in-grid unvisited neighbour: nothing else and none missing, each once, in N, E, S, W order, which decides what an index draw picks |
| MazeGen.Carve | game.js:91-94 | A carve clears the chosen wall on the current cell and the opposite wall on the neighbour, marks the neighbour visited, and leaves every other cell alone |
| MazeGen.CarveOpens | game.js:91-92 | A carve adds exactly the two sides of one wall to the openings and removes none |
| MazeGen.CarveSymmetric | game.js:91-92 | A carve keeps the walls symmetric: a wall between two cells is present on both sides or on neither |
| MazeGen.CarveBoundary | game.js:87 | A carve never opens a wall facing out of the grid, because it only targets in-grid cells |
| MazeGen.CarveTree | game.js:93-94 | The new cell is entered from the current cell through the new opening, so parent links keep leading back to (0,0) |
| MazeGen.CarveStep | game.js:88-94 | One carving turn of the loop uses exactly one draw: draw k picks among the candidate directions by index, that wall is carved, the backtracker moves onto the picked neighbour and pushes the old cell. It visits one new cell and keeps the loop invariant |
| MazeGen.PopKeepsInv | game.js:95 | Backtracking to the top of the stack keeps the loop invariant |
| MazeGen.AllVisited | game.js:96 | When the stack is empty and the current cell has no unvisited neighbour, every cell is visited |
| MazeGen.PathHome | game.js:84-94 | Every visited cell is reached from (0,0) by a walk through openings |
| MazeGen.TreeConnected | game.js:84-96 | Once every cell is visited, the maze is connected from (0,0) |
| MazeGen.GenMaze | game.js:81-99 | The backtracker terminates and uses exactly W·H−1 draws. The returned run records every turn of the loop: each turn either carves toward the candidate its draw picks and pushes the current cell, or, with no candidate left, pops the top of the stack. The run ends with no candidate and an empty stack, and the maze is its last maze. Every cell ends visited, walls are symmetric and the boundary is closed. There are exactly W·H−1 openings and every cell is reachable from (0,0), so the result is a spanning tree |
| MazeGen.GeneratesUnique | game.js:81-99 | The draws decide the maze: two complete runs of the backtracker on the same grid and the same draws are the same run and end on the same maze |
| Coords.CellCenter | game.js:101 | A cell's centre lies x·S+S/2 and y·S+S/2 past the grid edge, and dividing that offset by S gives back the cell |
| Coords.OriginExact | game.js:110 | The grid edge −W·S/2 is the exact integer −3W, so no rounding is involved |
| Coords.CenterOnFloor | game.js:101 | The centre of every in-grid cell lies strictly inside the floor square centred on the world origin |
| Coords.CenterSpacing | game.js:101 | The centres of neighbouring cells lie exactly S apart, in the direction of the step |
| Coords.CenterSymmetric | game.js:110 | The maze is centred on the world origin: the centre of (x,y) is the negation of the centre of (W−1−x, H−1−y) |
| Setup.PresetOf | game.js:212-214 | Presets are square with odd sides from 11 to 25, and the top view is unconditional exactly on easy |
| Setup.Corners | game.js:130 | The corner list has four entries: (0,0) first, then the three corners a goal may occupy, all in the grid, and every one of those corners appears among the last three |
| Setup.ChooseGoal | game.js:130-131 | The goal is the corner of the first draw that does not land on (0,0): one of the three other corners, never (0,0). The result is None exactly when every remaining draw lands on (0,0) |
| Setup.RoundSqrtDiv6 | game.js:137 | The result k is Math.round(sqrt(a)/6) in exact arithmetic: (6k−3)² ≤ a < (6k+3)² |
| Setup.ViewCellCount | game.js:137 | There are at least two view cells |
| Setup.MediumViewCellCount | game.js:137 | On the 17×17 medium maze there are three view cells |
| Setup.SampleCells | game.js:138 | The i-th view cell takes its column and row from two consecutive draws, and lies in the grid. It is None exactly when the draws run out |
| Setup.ViewCells | game.js:135-139 | There are no view cells unless the difficulty is medium. On medium there are max(2, round(√(W·H)/6)) of them, all in the grid |
| Setup.CarveMaze | game.js:109 | The carved maze is the backtracker's complete run on the draws. It is well formed and a spanning tree: connected from (0,0), with exactly W·H−1 openings. Carving uses exactly W·H−1 draws |
| Setup.DrawGoalAndCells | game.js:130-139 | The goal is the corner that the rejection sampling from draw k yields, and the view cells are the ones drawn from the first draw after it. The result exists exactly when both draws succeed. The goal is then a corner other than (0,0), and the view cells are in the grid, present only on medium, and as many as the medium count |
| Setup.Place | game.js:104-141 | Around a carved maze the goal and view cells drawn from draw k are placed. The result exists exactly when those draws succeed, and it is then a level as a new game builds it, with exactly that goal and those view cells |
| Setup.BuildLevel | game.js:104-141 | A level is built exactly when the draws suffice. Its maze is then the backtracker's complete run on the draws, and its goal and view cells are drawn from the first draw the maze leaves unused. It has the preset's size, a spanning-tree maze (connected, with exactly W·H−1 openings), a goal corner other than (0,0), and view cells only on medium |
| Setup.BuiltFromUnique | game.js:104-141 | The draws decide the level: two levels of one difficulty built from the same draws are equal |
| Game.CanMove | game.js:158 | A step is possible exactly for a direction 0..3 whose wall is absent and whose neighbour lies in the grid; any other direction gives false |
| Game.CanMoveIsOpen | game.js:158 | In a generated maze a possible step is an opening, and the step back from the neighbour is possible too |
| Game.StartTurn | game.js:160 | A turn is ignored while an animation runs or in the top view. Otherwise the heading advances by 3 (left) or 1 (right) modulo 4 and a turn animation starts. The position, view mode, wins, saved pose and both view buttons never change |
| Game.TurnBlocksInput | game.js:160-162 | While a started turn runs, every further turn and step is ignored |
| Game.MoveDir | game.js:162 | Forward uses the heading and back uses the opposite direction |
| Game.StartMove | game.js:162 | A step starts exactly when no animation runs, the view is not top, and the move is possible. It then aims at the neighbouring cell; otherwise nothing changes |
| Game.OnViewCell | game.js:191 | True exactly when some view cell equals the position |
| Game.OfferTop | game.js:190 | For a level that follows its difficulty's preset, the top view is offered everywhere on easy, never on hard, and on medium exactly when some view cell equals the position |
| Game.EnterTopView | game.js:189 | Does nothing in the top view. Otherwise it starts the flight up whatever animation was running, saves the cell and heading, hides the top button and shows the back button |
| Game.ExitTopView | game.js:190 | Does nothing outside the top view. Otherwise it starts the flight down to the saved pose and hides the back button. The top button shows if it was shown, if the top view is unconditional, or on medium on a view cell |
| Game.Complete | game.js:228-236 | The running animation ends. A step lands on its target, wins exactly when that is the goal, and on medium shows the top button exactly on view cells. The top button changes only then. The flight up ends in the top view and the flight down in first person. The back button and the saved pose never change |
| Game.ResetToMenu | game.js:218 | Back to first person with both view buttons hidden. The running animation, the position and the heading are kept |
| Game.HandleRuns | game.js:178-185 | The left and right arrows start a left and a right turn, the up and down arrows a step forward and back. A shown top button enters the top view, a shown back button leaves it, the menu button resets, and the animation frame completes the running animation |
| Game.Handle | game.js:181-185 | Each input keeps the level and a well-shaped grid. A click on the hidden top button or the hidden back button changes nothing |
| Game.HandleKeepsTopGate | game.js:183-190 | Every input keeps the top button to places that offer the top view: always on easy, on medium only on view cells, never on hard. So a top click opens the top view only where it is offered |
| Game.NewGameTopGate | game.js:216 | A new game shows the top button only where the top view is offered |
| Game.NewGame | game.js:141 | A new game starts on (0,0) facing east with no wins. The top button shows when the top view is unconditional. The view mode, animation, saved pose and back button carry over from the previous game |
| Game.StartGame | game.js:212-216 | A game starts exactly when the draws suffice, on a valid level of the chosen difficulty that the draws decide, at (0,0) facing east. The state is the new game on that level, carrying over the view mode, animation, saved pose and back button of the previous game |
| Game.HandleKeepsValid | game.js:160-190 | Every input keeps a valid level, a heading in 0..3, and a view mode consistent with the animation and the back button |
| Game.HandleKeepsSettled | game.js:158-162 | Every input keeps the player on the grid, and moves it only to a neighbouring cell through an opening |
| Game.CompleteKeepsSettled | game.js:230-232 | The end of a step started in this game lands on a cell of the grid next to the old one |
| Game.NewGameSettled | game.js:141 | A new game starts on the grid unless the previous game left a step running |
| Game.ViewModeOnlyByViewEvents | game.js:160-162 | Turning and stepping never change the view mode, and are ignored while an animation runs or in the top view |
| Game.TurnLeftRight | game.js:160 | Pressing left, letting the turn end, pressing right and letting it end faces the start direction again, on the same cell and idle |
| Game.TurnsHeading | game.js:160 | After k presses of the same arrow, each turn let end, the heading has advanced by k (right) or 3k (left), modulo 4 |
| Game.FourTurns | game.js:160 | Four quarter turns the same way face the start direction again |
| Game.MoveThenComplete | game.js:230-233 | In a generated maze, an up or down arrow whose step is possible, followed by the frame that ends it, lands on the neighbouring cell through an opening, keeps the heading, leaves the game idle, and adds one win exactly when that cell is the goal |
| Game.BlockedMove | game.js:162 | A blocked step changes nothing, not even after the next frame |
| Game.TopRoundTrip | game.js:183-190 | A click on the shown top button, its flight, a click on the back button and its flight return to the same cell and heading in first person. The back button is hidden again and the top button shows exactly where the top view is offered |
| Game.WinRepeats | game.js:230-233 | The win is not latched: an arrow step off the goal and an arrow step back onto it raise exactly one more win |
| Game.StaleTopFlightLocksView | game.js:218 | A flight up interrupted by the menu leaves the next game in the top view with no back button, whether it ends on the menu or in that game. Every input but the menu leaves that state unchanged |
| Game.StepEndsOnMenu | game.js:230-233 | A step that ends on the menu still lands on its target and raises a win when that is the goal. The next game starts on (0,0) with no wins |
| Game.StaleStepLeavesGrid | game.js:218 | A step interrupted by the menu can land outside the next, smaller maze. From there no step can start |
| Game.StaleStepWins | game.js:218 | A step interrupted by the menu whose target is the next game's goal raises a win without a single step |
| Leaderboard.ReadScores | server.js:8 | A store that cannot be read or parsed counts as no scores |
| Leaderboard.Insert | server.js:10 | Inserting a score adds exactly that score: the result is one longer and holds the new score and every old one, and nothing else |
| Leaderboard.Sort | server.js:10 | Sorting keeps the number of scores and holds exactly the stored scores |
| Leaderboard.SortSorted | server.js:10 | The sorted scores are ascending by time |
| Leaderboard.SortPerm | server.js:10 | Sorting adds and drops no score |
| Leaderboard.SortStable | server.js:10 | Sorting is stable: scores with equal times keep their stored order |
| Leaderboard.InsertSplits | server.js:10 | A score goes behind every score it does not beat and in front of every slower one |
| Leaderboard.List | server.js:10 | The listing has min(10, n) entries, is ascending by time, and is a sub-multiset of the stored scores; it is all of them when there are at most ten |
| Leaderboard.ListFastest | server.js:10 | No stored score left out of the listing is faster than a listed one |
| Leaderboard.ListStable | server.js:10 | Among equal times, the listed scores are the earliest submitted ones, in submission order |
| Leaderboard.Parse | server.js:11 | A body yields a score exactly when its name is a string and its time a number; a missing body yields none |
| Leaderboard.Submit | server.js:11 | An invalid body is rejected and leaves the store untouched. A valid one appends exactly that score behind the stored ones |
| Leaderboard.SubmitToUnreadable | server.js:8-11 | A valid submission to an unreadable store leaves exactly that one score |
| Leaderboard.SortAppend | server.js:10-11 | The sorted store after a submission is the old sorted store with the new score inserted behind every stored score it does not beat |
| Leaderboard.SubmitThenList | server.js:10-11 | After a submission the new score is listed at the position equal to the number of stored scores it does not beat. If that number is ten or more, the listing is unchanged |

## Left out

- Rendering is left out: the scene, lighting, wall meshes, sprites, camera interpolation, eased progress and the continuous heading. These are drawing and floating-point matters. A frame that does not end the animation only moves the camera, so it is not a step of the model.
- The camera pose saved by `enterTopView` is continuous. The model saves the discrete cell and heading. They can differ whenever the camera is not at rest on the player's cell and heading when the pose is saved or used, and whenever an animation or a saved pose carries over into the next game. The cases are:
  - an interrupted turn or step;
  - a click during the flight down: leaving the top view shows the top button at once, always on easy and on medium on a view cell, so the click saves a mid-air camera position and a half-way heading, and the next return from the top view lands there;
  - a turn or flight down that outlives the menu and ends in the next game: the camera rests at the old heading or saved position while the player stands on (0,0) facing east;
  - a pose saved over the menu: on medium, a step that ends on the menu on a view cell shows the top button there, and a click on it saves the old cell and heading and shows the back button. The next game keeps the view mode and the back button, so the back click flies to the old cell and heading while the player stands on (0,0) facing east.
- The DOM is left out: HUD text and blinking, the menu, the overlay, the score form, the pad buttons and their display. The two view buttons are kept as booleans, because their visibility gates the view switch.
- The run timer (`performance.now`, `setInterval`) and the score `fetch` calls are wall clock and network. The number of wins stands in for `showWin`.
- Express routing, the `fs` reads and writes and `listen` are I/O. The store is a value passed in and returned.
- A score file that parses to something other than a list of scores is left out. A non-array would make the server's sort throw, and entries without a numeric time would make its comparator inconsistent. The model assumes the file holds what the server wrote.
- Times are exact reals, not IEEE doubles, so float rounding in the comparator is not modelled. Infinite times are left out too. The JSON parser turns an overlarge literal such as `1e999` into `Infinity`. That value passes the server's number check, but the file stores it as `null`, and the comparator then sorts it as 0: ahead of every positive time, tied with a stored 0, and behind negative times, which the server also accepts.
- `sw.js` is a cache-first service worker: pure I/O and not part of this model.
- Input before the first game is left out: there is no maze then.
- Clicks on the menu difficulty buttons arrive only while the menu is shown; the model lets `StartGame` be applied to any state.
- Setup.RoundSqrtDiv6: computes `Math.round(Math.sqrt(a)/6)` in exact arithmetic. The floating-point square root is not modelled; for the three presets the results agree, since no preset sits on a rounding boundary.
- `Math.random` is left out. The supplied draws stand in for it, reduced modulo the number of choices.
