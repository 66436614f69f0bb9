/** The snake game: a snake of grid cells that moves one cell per tick in
    its direction, dies on a wall or on itself, grows by one cell for each
    food it eats and scores ten points per food. */
module SnakeGame {
  import opened Grid

  /** WINDOW_WIDTH, WINDOW_HEIGHT, CELL_SIZE and the grid they give. */
  const WindowWidth := 800
  const WindowHeight := 600
  const CellSize := 20
  const GridWidth := WindowWidth / CellSize
  const GridHeight := WindowHeight / CellSize

  /** The four headings, as (dx, dy) with y growing downwards. */
  const Up: Pos := (0, -1)
  const Down: Pos := (0, 1)
  const Left: Pos := (-1, 0)
  const Right: Pos := (1, 0)

  /** Where a new snake starts: the middle of the grid. */
  const Start: Pos := (GridWidth / 2, GridHeight / 2)

  /** Points for one food. */
  const FoodPoints := 10

  predicate InGrid(p: Pos)
  {
    InBounds(GridWidth, GridHeight, p.0, p.1)
  }

  /** The cell one step from p in direction d. */
  function Ahead(p: Pos, d: Pos): Pos
  {
    (p.0 + d.0, p.1 + d.1)
  }

  function Opposite(d: Pos): Pos
  {
    (d.0 * -1, d.1 * -1)
  }

  // ---------------------------------------------------------------------
  // The body of the snake

  /** A snake's body: head first, never empty, no cell twice, all on the grid. */
  predicate ValidBody(body: seq<Pos>)
  {
    && body != []
    && Distinct(body)
    && forall i | 0 <= i < |body| :: InGrid(body[i])
  }

  /** The head can go to cell h: h is on the grid and not part of the body
      (the tail cell counts, even though it would move away). */
  predicate Clear(body: seq<Pos>, h: Pos)
  {
    InGrid(h) && h !in body
  }

  /** The body after a move to `head`: the new head in front, and the tail
      cell dropped unless the snake is growing. */
  function Advance(body: seq<Pos>, head: Pos, grow: bool): seq<Pos>
    requires body != []
  {
    [head] + (if grow then body else body[..|body| - 1])
  }

  /** A move puts the head on the new cell, makes every segment take the
      place of the one in front of it, and lengthens the snake by one cell
      exactly when it was growing. */
  lemma AdvanceShape(body: seq<Pos>, head: Pos, grow: bool)
    requires body != []
    ensures var next := Advance(body, head, grow);
      && next[0] == head
      && |next| == |body| + (if grow then 1 else 0)
      && (forall i | 0 <= i < |next| - 1 :: next[i + 1] == body[i])
      && (forall p | p in next :: p == head || p in body)
  {
    var next := Advance(body, head, grow);
    forall p | p in next ensures p == head || p in body {
      var k :| 0 <= k < |next| && next[k] == p;
      if k > 0 {
        assert next[k] == body[k - 1];
      }
    }
  }

  /** A move onto a clear cell keeps the body a valid one. */
  lemma AdvanceKeepsValid(body: seq<Pos>, head: Pos, grow: bool)
    requires ValidBody(body) && Clear(body, head)
    ensures ValidBody(Advance(body, head, grow))
  {
    var next := Advance(body, head, grow);
    AdvanceShape(body, head, grow);
    forall i, j | 0 <= i < j < |next| ensures next[i] != next[j] {
      assert next[j] == body[j - 1];
      if i > 0 {
        assert next[i] == body[i - 1];
      }
    }
    forall i | 0 <= i < |next| ensures InGrid(next[i]) {
      if i > 0 {
        assert next[i] == body[i - 1];
      }
    }
  }

  // ---------------------------------------------------------------------
  // Steering

  /** change_direction: the requested direction is taken unless it is the
      exact opposite of the current one. */
  function Turned(current: Pos, requested: Pos): (next: Pos)
    ensures next == requested || next == current
    ensures requested != Opposite(current) ==> next == requested
    ensures current != (0, 0) ==> next != Opposite(current)
  {
    if Opposite(current) != requested then requested else current
  }

  /** The snake does not point at its own neck: the cell ahead of the head
      is not the second cell of the body. */
  predicate NeckClear(body: seq<Pos>, direction: Pos)
  {
    |body| >= 2 ==> Ahead(body[0], direction) != body[1]
  }

  /** Every successful move leaves the snake pointing away from its neck:
      the neck is where the head was, one step behind. */
  lemma MoveClearsNeck(body: seq<Pos>, direction: Pos, grow: bool)
    requires body != [] && Clear(body, Ahead(body[0], direction))
    ensures NeckClear(Advance(body, Ahead(body[0], direction), grow), direction)
  {
    var next := Advance(body, Ahead(body[0], direction), grow);
    if |next| >= 2 {
      assert next[1] == body[0];
      assert direction != (0, 0);
    }
  }

  /** Turned compares the request with the current direction only, so two
      requests between moves can undo the guard: a snake heading right that
      is asked for up and then left ends up heading left, straight into its
      own neck, and its next move fails. */
  lemma DoubleTurnHitsNeck()
    ensures var body := [(5, 5), (4, 5)];
      && ValidBody(body) && NeckClear(body, Right)
      && Turned(Turned(Right, Up), Left) == Opposite(Right)
      && !NeckClear(body, Turned(Turned(Right, Up), Left))
      && !Clear(body, Ahead(body[0], Turned(Turned(Right, Up), Left)))
  {
  }

  /** The corrected steering rule: refuse a direction that would take the
      head onto the neck, whatever direction is current. */
  function Steered(body: seq<Pos>, current: Pos, requested: Pos): (next: Pos)
    requires body != []
    ensures next == requested || next == current
    ensures NeckClear(body, current) ==> NeckClear(body, next)
    ensures NeckClear(body, requested) ==> next == requested
  {
    if |body| >= 2 && Ahead(body[0], requested) == body[1] then current else requested
  }

  /** With the corrected rule, any number of requests between two moves
      keeps the snake pointing away from its neck. */
  lemma {:induction false} SteeringKeepsNeckClear(body: seq<Pos>, current: Pos, requests: seq<Pos>)
    requires body != [] && NeckClear(body, current)
    ensures NeckClear(body, SteerAll(body, current, requests))
    decreases |requests|
  {
    if requests != [] {
      SteeringKeepsNeckClear(body, Steered(body, current, requests[0]), requests[1..]);
    }
  }

  /** The direction after a series of requests under the corrected rule. */
  function SteerAll(body: seq<Pos>, current: Pos, requests: seq<Pos>): Pos
    requires body != []
    decreases |requests|
  {
    if requests == [] then current else SteerAll(body, Steered(body, current, requests[0]), requests[1..])
  }

  // ---------------------------------------------------------------------
  // The snake

  class Snake {
    /** positions: head first */
    var positions: seq<Pos>
    var direction: Pos
    var grow: bool

    ghost predicate Valid()
      reads this
    {
      ValidBody(positions)
    }

    /** A one-cell snake in the middle of the grid, heading right. */
    constructor ()
      ensures Valid()
      ensures positions == [Start] && direction == Right && !grow
    {
      positions := [Start];
      direction := Right;
      grow := false;
    }

    /** move: the head advances one cell in the current direction. A wall
        or the body in the way makes the move fail and change nothing;
        otherwise the body follows, growing by one cell if it was due to. */
    method Move() returns (moved: bool)
      requires Valid()
      modifies this`positions, this`grow
      ensures Valid()
      ensures moved == Clear(old(positions), Ahead(old(positions)[0], direction))
      ensures moved ==> positions == Advance(old(positions), Ahead(old(positions)[0], direction), old(grow))
                        && !grow && NeckClear(positions, direction)
      ensures !moved ==> positions == old(positions) && grow == old(grow)
    {
      var head := Ahead(positions[0], direction);
      if head.0 < 0 || head.0 >= GridWidth || head.1 < 0 || head.1 >= GridHeight {
        return false;
      }
      if head in positions {
        return false;
      }
      AdvanceKeepsValid(positions, head, grow);
      MoveClearsNeck(positions, direction, grow);
      positions := [head] + positions;
      if !grow {
        positions := positions[..|positions| - 1];
      } else {
        grow := false;
      }
      return true;
    }

    /** change_direction, as written: see Turned. */
    method ChangeDirection(requested: Pos)
      modifies this`direction
      ensures direction == Turned(old(direction), requested)
    {
      if (direction.0 * -1, direction.1 * -1) != requested {
        direction := requested;
      }
    }

    /** change_direction with the corrected rule: see Steered. */
    method Steer(requested: Pos)
      requires Valid()
      modifies this`direction
      ensures direction == Steered(positions, old(direction), requested)
      ensures old(NeckClear(positions, direction)) ==> NeckClear(positions, direction)
    {
      if |positions| < 2 || Ahead(positions[0], requested) != positions[1] {
        direction := requested;
      }
    }

    /** eat_food: the next move grows the snake by one cell. */
    method EatFood()
      modifies this`grow
      ensures grow
    {
      grow := true;
    }
  }

  // ---------------------------------------------------------------------
  // The game

  /** The food never lies under the snake's body; it can be under the head
      only in a game just reset, before the first move. */
  predicate FoodClear(body: seq<Pos>, grow: bool, food: Pos)
    requires body != []
  {
    food !in body[1..] && (food == body[0] ==> |body| == 1 && !grow)
  }

  /** Ten points per food eaten, and each food eaten is one cell of body
      beyond the first, counting the one still to grow. */
  predicate ScoreMatches(body: seq<Pos>, grow: bool, score: int)
  {
    score == FoodPoints * (|body| - 1 + (if grow then 1 else 0))
  }

  /** generate_position: any cell of the grid. */
  method GeneratePosition() returns (p: Pos)
    ensures InGrid(p)
  {
    assert (0, 0) in Cells(GridWidth, GridHeight);
    p :| p in Cells(GridWidth, GridHeight);
  }

  /** A body shorter than the grid leaves a grid cell free. */
  lemma FoodRoom(body: seq<Pos>)
    requires Distinct(body) && |body| < GridWidth * GridHeight
    ensures Cells(GridWidth, GridHeight) - (set p | p in body) != {}
  {
    DistinctSize(body);
    FreeCell(GridWidth, GridHeight, set p | p in body);
  }

  /** A body that covers as many cells as the grid has covers every grid
      cell, so no position the food can be given is free of it. */
  lemma FullSnakeLeavesNoFood(body: seq<Pos>)
    requires ValidBody(body) && |body| == GridWidth * GridHeight
    ensures forall p | InGrid(p) :: p in body
  {
    var taken, all := (set p | p in body), Cells(GridWidth, GridHeight);
    DistinctSize(body);
    CellsCount(GridWidth, GridHeight);
    assert taken <= all;
    assert all == taken + (all - taken);
    assert all - taken == {};
    forall p | InGrid(p) ensures p in body {
      assert p in all && p !in all - taken;
    }
  }

  /** A move that does not reach the food keeps it off the body, and the
      score still counts the body. */
  lemma MoveMisses(body: seq<Pos>, grow: bool, head: Pos, food: Pos, score: int)
    requires body != [] && FoodClear(body, grow, food) && ScoreMatches(body, grow, score)
    requires head != food && head !in body
    ensures FoodClear(Advance(body, head, grow), false, food)
    ensures ScoreMatches(Advance(body, head, grow), false, score)
  {
    var next := Advance(body, head, grow);
    AdvanceShape(body, head, grow);
    forall k | 1 <= k < |next| ensures next[k] != food {
      assert next[k] == body[k - 1];
    }
    assert food !in next[1..];
  }

  /** A move onto the food: with one more cell to grow and ten more points
      the score still counts the body. */
  lemma MoveEats(body: seq<Pos>, grow: bool, head: Pos, score: int)
    requires body != [] && ScoreMatches(body, grow, score)
    ensures ScoreMatches(Advance(body, head, grow), true, score + FoodPoints)
  {
    AdvanceShape(body, head, grow);
  }

  class Game {
    var snake: Snake
    /** food.position */
    var food: Pos
    var score: int
    /** game_over */
    var gameOver: bool
    var paused: bool

    ghost predicate Valid()
      reads this, snake
    {
      && snake.Valid()
      && InGrid(food)
      && FoodClear(snake.positions, snake.grow, food)
      && ScoreMatches(snake.positions, snake.grow, score)
    }

    /** A game as reset_game leaves it. */
    ghost predicate Reset()
      reads this, snake
    {
      && snake.positions == [Start] && snake.direction == Right && !snake.grow
      && score == 0 && !gameOver && !paused
    }

    constructor ()
      ensures Valid() && Reset() && fresh(snake)
    {
      snake := new Snake();
      var p := GeneratePosition();
      food := p;
      score, gameOver, paused := 0, false, false;
    }

    /** reset_game: a new one-cell snake, food anywhere on the grid, no
        points, running. */
    method ResetGame()
      modifies this
      ensures Valid() && Reset() && fresh(snake)
    {
      snake := new Snake();
      food := GeneratePosition();
      score, gameOver, paused := 0, false, false;
    }

    /** update: one tick. A game that is over or paused stays as it is.
        Otherwise the snake moves; a failed move ends the game with nothing
        else changed. A move onto the food makes the snake due to grow,
        scores ten points and puts the food on a cell the snake does not
        occupy (the game retries random cells until one is free; here one
        free cell is chosen directly). The game never gets past that retry
        loop when the snake, with its pending growth, fills the grid (see
        FullSnakeLeavesNoFood), which is what the second requires leaves out. */
    method Update()
      requires Valid()
      requires !gameOver && !paused && Clear(snake.positions, Ahead(snake.positions[0], snake.direction))
               && Ahead(snake.positions[0], snake.direction) == food
               ==> |snake.positions| + (if snake.grow then 1 else 0) < GridWidth * GridHeight
      modifies this`food, this`score, this`gameOver, snake`positions, snake`grow
      ensures Valid() && snake == old(snake) && paused == old(paused)
      ensures old(gameOver || paused) ==>
        && gameOver == old(gameOver) && score == old(score) && food == old(food)
        && snake.positions == old(snake.positions) && snake.grow == old(snake.grow)
      ensures old(!gameOver && !paused && !Clear(snake.positions, Ahead(snake.positions[0], snake.direction))) ==>
        && gameOver && score == old(score) && food == old(food)
        && snake.positions == old(snake.positions) && snake.grow == old(snake.grow)
      ensures old(!gameOver && !paused && Clear(snake.positions, Ahead(snake.positions[0], snake.direction))) ==>
        && !gameOver
        && snake.positions == Advance(old(snake.positions), Ahead(old(snake.positions)[0], snake.direction), old(snake.grow))
        && (snake.grow <==> snake.positions[0] == old(food))
        && score == old(score) + (if snake.positions[0] == old(food) then FoodPoints else 0)
        && (snake.positions[0] == old(food) ==> food !in snake.positions)
        && (snake.positions[0] != old(food) ==> food == old(food))
    {
      if gameOver || paused {
        return;
      }
      ghost var body, growing := snake.positions, snake.grow;
      var moved := snake.Move();
      if !moved {
        gameOver := true;
        return;
      }
      if snake.positions[0] == food {
        MoveEats(body, growing, snake.positions[0], score);
        snake.EatFood();
        score := score + FoodPoints;
        AdvanceShape(body, snake.positions[0], growing);
        FoodRoom(snake.positions);
        var spot :| spot in Cells(GridWidth, GridHeight) - (set p | p in snake.positions);
        food := spot;
      } else {
        MoveMisses(body, growing, snake.positions[0], food, score);
      }
    }
  }
}
