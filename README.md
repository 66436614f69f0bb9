# Minesweeper and Snake, modelled in Dafny

This project models the game logic of two small Pygame games and proves
what their rules promise.

**Minesweeper** (`BuscaMinas.py`) is a 16 by 16 board with 40 mines:

- The mines are placed on the first reveal, never on the clicked cell.
- Every safe cell counts the mines among its up to eight neighbours.
- Revealing a cell whose count is 0 reveals its neighbours in turn, recursively.
- Flags toggle on hidden cells and move a "mines left" counter.
- A mine ends the game lost and shows every mine.
- Revealing every safe cell wins.

**Snake** (`Snake.py`) runs on a 40 by 30 grid:

- The snake moves one cell per tick.
- Hitting a wall or its own body ends the game.
- Eating the food makes the next move grow the snake by one cell and scores ten points.
- The food then moves to a cell the snake does not occupy.

The files:

- `grid.dfy` (module `Grid`): positions, the cells of a grid and their count. It also proves that a grid with fewer taken cells than cells has a free one.
- `minesweeper_board.dfy` (module `MinesweeperBoard`): the board as a value.
  - `Cell` (Celda) and `CellState` (OCULTA, REVELADA, MARCADA);
  - the sets of mined, flagged and hidden cells;
  - the neighbour count;
  - the relations between two boards that describe what a reveal may do.
- `minesweeper.dfy` (module `Minesweeper`): the class `Buscaminas`.
  - Its fields are the board, juego_terminado, juego_ganado, primer_click and minas_restantes.
  - Its methods are the game's operations, each proved against the board relations.
  - Its invariant is `Consistent`: the mines are placed exactly once, they number `mines`, every safe cell carries its count, a won game has every safe cell revealed, a lost game shows every mine, and outside a lost game the counter is the mine count minus the flags.
- `snake.dfy` (module `SnakeGame`): the classes `Snake` and `Game`.
  - The pure functions on the body are `Advance`, `Turned` and `Steered`.
  - The invariant of `Game` says that the body is a valid one and that the food is on the grid.
  - The food is never under the body, with one exception: it may lie under the head of a one-cell snake that is not growing, which is where `reset_game` can put it.
  - It also ties the score to the length: ten points per cell grown.

The whole of `revelar_celda` is specified by `RevealOutcome`:

- A click off the board, on a cell that is not hidden, or in a game that is over changes nothing.
- The first click is never a mine.
- The mines and counts never change once placed.
- A mine loses, and the board is the old one with every mine revealed.
- A safe click only uncovers safe cells.
- Each cell a safe click uncovers is reached from the clicked cell by a trail. Every cell on the trail is newly revealed, and each step goes from a cell with no mine around it to one of its eight neighbours. A click on a cell with a mine around it therefore uncovers that cell alone (`NumberedClickRevealsOne`).
- A safe click leaves no newly revealed cell with count 0 next to a hidden cell.
- After a safe click the game is won, and over, exactly when every safe cell is revealed.

Once the mines are placed these clauses leave no freedom: two results of the same click that both meet `RevealOutcome` are equal (`RevealOutcomeUnique`). A safe click uncovers exactly the cells reached from the click through count-0 cells that this click reveals, together with their neighbours. Flagged cells and cells revealed before the click stop the cascade, because the guard at BuscaMinas.py:88-90 returns on any cell that is not hidden.

The recursion of the cascade is proved to terminate: each step takes one cell out of the hidden ones.

## Model

| member | source | states |
|---|---|---|
| `Grid.Cells` | BuscaMinas.py:40 | a position is a cell of the grid exactly when both coordinates are in range |
| `Grid.CellsCount` | BuscaMinas.py:40 | the rows-by-cols grid has rows * cols cells |
| `Grid.FreeCell` | BuscaMinas.py:57-66 | while fewer cells are taken than the grid holds, some cell is free: the retry loop of colocar_minas always has a cell to land on |
| `Grid.DistinctSize` | Snake.py:46-49 | a body with no cell twice occupies as many cells as it is long |
| `MinesweeperBoard.PutBack` | BuscaMinas.py:124-130 | writing a cell back to its old value restores the board |
| `MinesweeperBoard.MinesAmongCountsHits` | BuscaMinas.py:76-83 | the count the neighbour loop accumulates over a list of distinct offsets is the number of mined board cells those offsets reach |
| `MinesweeperBoard.CountIsMinedNeighbours` | BuscaMinas.py:76-83 | over the eight offsets the count is the number of mined cells among the neighbours that lie on the board (nothing beyond an edge), at most 8 |
| `MinesweeperBoard.ZeroCountNeighbourSafe` | BuscaMinas.py:108-113 | a safe cell with count 0 has no mined neighbour, so the cascade never reaches a mine |
| `MinesweeperBoard.SameMines` | BuscaMinas.py:70-84 | boards with the mines in the same cells have the same mine set and the same mined neighbours around every cell, so recounting after a count is written sees the same mines |
| `MinesweeperBoard.SameLayoutKeepsMines` | BuscaMinas.py:98-99 | boards with the same mines and counts have the same mine set, and both are numbered or neither |
| `MinesweeperBoard.UnveilsKeepsFlags` | BuscaMinas.py:108-113 | uncovering hidden cells keeps the flags and only shrinks the hidden cells |
| `MinesweeperBoard.FlagCount` | BuscaMinas.py:125-130 | flagging an unflagged cell adds one flag; unflagging a flagged one removes one |
| `MinesweeperBoard.RevealShrinksHidden` | BuscaMinas.py:88-99 | revealing a hidden cell strictly lowers the number of hidden cells, which bounds the recursion |
| `MinesweeperBoard.Chain` | BuscaMinas.py:108-113 | two stretches of the cascade compose: the layout stays, only safe hidden cells are uncovered, and zero cells uncovered on the way keep no hidden neighbour |
| `MinesweeperBoard.RevealStep` | BuscaMinas.py:98-113 | revealing a safe cell and then its cascade only uncovers safe cells, and the cascade clears the neighbours of a zero cell |
| `MinesweeperBoard.ExplodedAfterReveal` | BuscaMinas.py:98-105 | revealing a mine and then every mine yields the old board with every mine revealed |
| `MinesweeperBoard.SpreadStep` | BuscaMinas.py:109-113 | after one more neighbour's reveal in the cascade, every cell uncovered so far is still reached by a trail from a cell around the opening |
| `MinesweeperBoard.SpreadFromClick` | BuscaMinas.py:98-113 | the clicked cell and every cell its cascade uncovers are reached by a trail from the clicked cell |
| `MinesweeperBoard.TrailPrepend` | BuscaMinas.py:108-113 | a trail that starts next to the clicked cell with count 0 extends back to that cell |
| `MinesweeperBoard.SpreadSameStates` | BuscaMinas.py:92-95 | trails depend only on which cells were hidden before, so placing mines does not change them |
| `MinesweeperBoard.SpreadFromNumbered` | BuscaMinas.py:107-116 | a cascade from a cell that has a mine around it uncovers nothing but that cell |
| `MinesweeperBoard.TrailCovered` | BuscaMinas.py:108-113 | a settled cascade from the same start over the same layout uncovers every cell on any trail of another cascade |
| `MinesweeperBoard.NewlyCovered` | BuscaMinas.py:108-113 | of two cascades from the same cell over the same layout, a settled one uncovers everything the other does |
| `Minesweeper.MinesPlaced` | BuscaMinas.py:93-95 | after the mines are placed the game is consistent and past its first click |
| `Minesweeper.Uncovered` | BuscaMinas.py:98-99 | revealing a hidden cell keeps the game consistent and the layout, and takes the cell out of the hidden ones |
| `Minesweeper.CascadeStep` | BuscaMinas.py:109-113 | one neighbour's reveal inside the cascade keeps the cascade's promises and leaves that neighbour uncovered, even when the game was won part-way |
| `Minesweeper.CascadeSpread` | BuscaMinas.py:109-113 | one neighbour's reveal inside the cascade keeps every cell uncovered so far reached by a trail from a cell around the click |
| `Minesweeper.ClearedGrows` | BuscaMinas.py:109-113 | the neighbours already uncovered stay so, and with one more the prefix grows |
| `Minesweeper.FlagToggled` | BuscaMinas.py:124-130 | a flag toggle keeps the game consistent with the counter moved one the other way, and unreveals nothing |
| `Minesweeper.IgnoredClick` | BuscaMinas.py:88-90 | a click off the board, on a cell that is not hidden, or in a finished game changes nothing |
| `Minesweeper.Lost` | BuscaMinas.py:101-105 | revealing the clicked mine and then every mine leaves a consistent game that is over and not won, with the layout kept and the board equal to the old one with every mine revealed |
| `Minesweeper.LostClick` | BuscaMinas.py:101-105 | a click on a mine ends the game lost, not won, with every mine revealed and nothing else changed |
| `Minesweeper.SafeClick` | BuscaMinas.py:107-116 | a safe click uncovers only safe cells, each reached from the clicked cell by a trail through cells with count 0, settles the cascade, and leaves the game won exactly when every safe cell is revealed |
| `Minesweeper.FirstClickSafe` | BuscaMinas.py:92-95 | placing the mines changes no state and spares the clicked cell, so the reveal's promises hold relative to the board before the mines |
| `Minesweeper.Checked` | BuscaMinas.py:139-147 | after the victory check a game that was not lost is won, and over, exactly when every safe cell is revealed |
| `Minesweeper.Rebase` | BuscaMinas.py:92-95 | what a reveal unveils from the board with its mines, and the trails that reach it, it unveils from the board before them |
| `Minesweeper.NumberedClickRevealsOne` | BuscaMinas.py:107-116 | a click on a safe cell with a mine next to it reveals that cell and leaves the state of every other cell as it was |
| `Minesweeper.RevealOutcomeUnique` | BuscaMinas.py:86-116 | once the mines are placed, two results of the same click that both meet `RevealOutcome` are the same board with the same over, won and first-click flags |
| `Minesweeper.StandardFits` | BuscaMinas.py:11-13 | the game's fixed 16 by 16 board with 40 mines has room for every mine and a safe cell, as the constructor requires |
| `Minesweeper.Buscaminas.constructor` | BuscaMinas.py:39-44 | a new game: every cell hidden and unmined, no flags, the counter at the mine count, mines still to be placed |
| `Minesweeper.Buscaminas.Restart` | BuscaMinas.py:222-224 | reiniciar gives back a fresh game with the same dimensions |
| `Minesweeper.Buscaminas.CountAdjacent` | BuscaMinas.py:74-84 | the count for one cell is the number of mined neighbours on the board, between 0 and 8 |
| `Minesweeper.Buscaminas.ComputeNumbers` | BuscaMinas.py:70-84 | every safe cell gets its count; mines, states and the counts of mined cells stay |
| `Minesweeper.Buscaminas.PlaceMines` | BuscaMinas.py:54-68 | exactly `mines` mines, none on the safe cell, every count computed, and no cell's state touched |
| `Minesweeper.Buscaminas.RevealAllMines` | BuscaMinas.py:132-137 | every mine becomes revealed, whatever its state was; nothing else changes |
| `Minesweeper.Buscaminas.CheckVictory` | BuscaMinas.py:139-147 | won and over are set when every safe cell is revealed, and otherwise stay as they were |
| `Minesweeper.Buscaminas.Reveal` | BuscaMinas.py:86-116 | revelar_celda keeps the game consistent and does what `RevealOutcome` says |
| `Minesweeper.Buscaminas.RevealHidden` | BuscaMinas.py:98-116 | revealing a hidden cell of a game with its mines placed: loss on a mine, otherwise the cascade and the victory check, as `RevealOutcome` says |
| `Minesweeper.Buscaminas.RevealAround` | BuscaMinas.py:108-113 | the cascade around a safe zero cell uncovers only safe cells, each reached by a trail from one of the eight cells around it; it keeps the layout, leaves no neighbour hidden and never loses the game |
| `Minesweeper.Buscaminas.ToggleFlag` | BuscaMinas.py:118-130 | a hidden cell becomes flagged with one fewer mine left, a flagged one hidden with one more; off the board, on a revealed cell or after the game nothing changes |
| `Minesweeper.Buscaminas.ToggleTwice` | BuscaMinas.py:118-130 | two toggles of the same cell give back the same board and counter |
| `SnakeGame.AdvanceShape` | Snake.py:49-54 | after a move the head is the new cell, every segment takes the place of the one ahead of it, and the length grows by one exactly when the snake was growing |
| `SnakeGame.AdvanceKeepsValid` | Snake.py:41-54 | a move onto a clear cell keeps the body non-empty, on the grid and without a cell twice |
| `SnakeGame.MoveClearsNeck` | Snake.py:36-56 | after a successful move the cell ahead of the head is not the neck |
| `SnakeGame.Turned` | Snake.py:58-61 | the requested direction is taken unless it is the exact opposite; a single request never reverses a moving snake |
| `SnakeGame.DoubleTurnHitsNeck` | Snake.py:58-61 | two requests between moves (up, then left, while heading right) reverse the snake into its neck, and its next move fails |
| `SnakeGame.Steered` | Snake.py:58-61 | corrected rule: a request that would take the head onto the neck is refused, and a snake clear of its neck stays so |
| `SnakeGame.SteeringKeepsNeckClear` | Snake.py:58-61 | under the corrected rule any series of requests between moves keeps the snake clear of its neck |
| `SnakeGame.Snake.constructor` | Snake.py:31-34 | a one-cell snake in the middle of the grid, heading right, not growing |
| `SnakeGame.Snake.Move` | Snake.py:36-56 | the move succeeds exactly when the next cell is on the grid and not in the body (tail included); it then advances the body and clears the growth, otherwise nothing changes |
| `SnakeGame.Snake.ChangeDirection` | Snake.py:58-61 | the direction becomes the request unless that is the opposite of the current one |
| `SnakeGame.Snake.Steer` | Snake.py:58-61 | the corrected change_direction: refuses a turn onto the neck and keeps a snake clear of its neck |
| `SnakeGame.Snake.EatFood` | Snake.py:63-64 | the snake is due to grow |
| `SnakeGame.GeneratePosition` | Snake.py:83-85 | the food lands on a cell of the grid |
| `SnakeGame.FoodRoom` | Snake.py:147-149 | a body shorter than the grid leaves a free cell for the food |
| `SnakeGame.FullSnakeLeavesNoFood` | Snake.py:147-149 | a body as long as the grid covers every grid cell, so no position the retry loop draws is free of it |
| `SnakeGame.MoveMisses` | Snake.py:136-143 | a move that misses the food keeps it off the body and the score matching the length |
| `SnakeGame.MoveEats` | Snake.py:143-145 | eating adds ten points and one cell to grow, so the score still matches the length |
| `SnakeGame.Game.constructor` | Snake.py:94-99 | a new game is a reset one |
| `SnakeGame.Game.ResetGame` | Snake.py:101-106 | a new one-cell snake, food on the grid, score 0, running and not paused |
| `SnakeGame.Game.Update` | Snake.py:136-149 | a finished or paused game does not change; a failed move ends the game and changes nothing else; otherwise the body advances, and eating scores ten points, makes the snake grow and moves the food to a free cell |

## Left out

- Drawing, fonts, colours and the window: `dibujar` and `draw`, including `Snake.draw` and `Food.draw`. This is output only.
- Mouse and key handling and the main loops: `obtener_coordenadas_celda`, `ejecutar`, `handle_events`, `run` and `main`. This covers pausing, restarting on a key, and quitting. These are I/O; `paused` and `gameOver` are fields that `Update` reads.
- The clock: `tiempo_inicio` and the tick rate.
- `Chatbot.py` and `Contraseñas.py` are not part of this model; they have nothing to do with the two games.
- Random draws (`random.randint`) become a free choice of an allowed cell. A retry loop that draws until it hits an allowed cell becomes one choice among the allowed cells. This covers colocar_minas and the food loop of update. The model does not capture the distribution or the number of retries.
- `Buscaminas` takes the board's dimensions and mine count as constructor arguments. The game fixes them at FILAS = COLUMNAS = 16 and MINAS = 40 (`StandardRows`, `StandardCols` and `StandardMines`). `StandardFits` proves that these meet the constructor's requirement of at least one mine and at least one safe cell.
- `Celda` is a value stored in a sequence of rows, not an object. Cells are never shared in the game, so an in-place write to a cell is modelled as replacing that cell (`Put`).
- `Food` is held as its position in `Game`. Its colour is not modelled.
- The cascade of `revelar_celda` is the method `RevealAround`, a loop over the eight neighbours in the order of the game's nested loops, each one a recursive call of `Reveal`.
- The counter `minas_restantes` is not clamped. It goes negative when more cells are flagged than there are mines, as the game does. After a loss the counter is no longer the mine count minus the flags, because revealing every mine clears the flags on them.
- Minesweeper.Buscaminas.PlaceMines: requires a board without mines. That is the only state in which revelar_celda calls colocar_minas. It also requires fewer mines than cells, without which the game's retry loop would never end.
- SnakeGame.Game.Update: requires, only for a running game whose move succeeds onto the food, that the snake leaves a grid cell free once the move is done. Otherwise the game's loop that looks for a free cell for the food never ends (`FullSnakeLeavesNoFood`). Every other call is allowed, including a paused or finished game and a failed move with the grid full.

## Findings

| source | as written | input that shows it | evidently intended | confidence | as-written member | corrected member |
|---|---|---|---|---|---|---|
| Snake.py:58-61 | change_direction compares the request only with the current direction. Several requests in one tick can chain into a reversal. | A snake at (5, 5), (4, 5) heading right receives up and then left in the same tick. It ends up heading left, its next move hits its own neck and the game is over. | The guard is there to stop the snake from moving back onto itself. A turn that would take the head onto the neck should be refused. | high (not executed) | `SnakeGame.DoubleTurnHitsNeck` | `SnakeGame.Steered` |
