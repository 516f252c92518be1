/** The snake game object of games/game1/main.js: its fields, updated in
    place by the frame update, the movement step and the touch handlers.
    Every method is proved to move the object's snapshot exactly as the
    corresponding function of `SnakeRules` does, and to keep the invariant. */
module SnakeGame {
  import opened Common
  import opened SnakeRules

  /** Side length of a grid cell in pixels. */
  const GridSize: real := 20.0

  class Game {
    const width: real
    const height: real
    const gridWidth: nat
    const gridHeight: nat
    const pauseButton: Rect

    var state: GameState
    var score: int
    var highScore: int
    var speed: int
    var lastTime: real
    var accumulator: real
    var snake: seq<Cell>
    var direction: Direction
    var nextDirection: Direction
    var food: Option<Cell>
    var specialFood: Option<Cell>
    var specialFoodTimer: real
    var specialFoodDuration: real
    /** `touchStartX`/`touchStartY`; None until the first recorded touch. */
    var touchStart: Option<(real, real)>

    /** The simulation fields as a value. */
    ghost function Snapshot(): World
      reads this
    {
      World(state, score, highScore, speed, accumulator, snake, direction, nextDirection,
            food, specialFood, specialFoodTimer, specialFoodDuration)
    }

    ghost predicate Valid()
      reads this
    {
      && gridWidth >= 6 && gridHeight >= 1
      && pauseButton == Rect(width - 60.0, 20.0, 40.0, 40.0)
      && WellFormed(Snapshot(), gridWidth, gridHeight)
    }

    /** The constructor and `init`: a start screen, the grid measured in
        whole 20-pixel cells, and the best score loaded from storage
        (`savedHighScore`, 0 when nothing was stored). */
    constructor (canvasWidth: real, canvasHeight: real, savedHighScore: int)
      requires canvasWidth >= 6.0 * GridSize && canvasHeight >= GridSize
      ensures Valid()
      ensures state == Start && score == 0 && highScore == savedHighScore && speed == StartSpeed
      ensures snake == [] && food == None && specialFood == None && touchStart == None
      ensures gridWidth == (canvasWidth / GridSize).Floor && gridHeight == (canvasHeight / GridSize).Floor
    {
      width := canvasWidth;
      height := canvasHeight;
      assert (canvasWidth / GridSize) >= 6.0;
      assert (canvasHeight / GridSize) >= 1.0;
      gridWidth := (canvasWidth / GridSize).Floor;
      gridHeight := (canvasHeight / GridSize).Floor;
      pauseButton := Rect(canvasWidth - 60.0, 20.0, 40.0, 40.0);
      state := Start;
      score := 0;
      highScore := savedHighScore;
      speed := StartSpeed;
      lastTime := 0.0;
      accumulator := 0.0;
      snake := [];
      direction := Right;
      nextDirection := Right;
      food := None;
      specialFood := None;
      specialFoodTimer := 0.0;
      specialFoodDuration := 0.0;
      touchStart := None;
    }

    /** The inner `for (const segment of this.snake)` search with its `break`. */
    method Occupied(x: int, y: int) returns (occupied: bool)
      ensures occupied <==> Cell(x, y) in snake
    {
      occupied := false;
      var i := 0;
      while i < |snake|
        invariant 0 <= i <= |snake|
        invariant Cell(x, y) !in snake[..i]
      {
        if snake[i].x == x && snake[i].y == y {
          occupied := true;
          break;
        }
        i := i + 1;
      }
    }

    /** The nested loops that fill `availablePositions`, column by column;
        `avoid` is the ordinary food when placing special food. */
    method AvailablePositions(avoid: Option<Cell>) returns (cells: seq<Cell>)
      ensures cells == FreeCells(gridWidth, gridHeight, snake, avoid)
    {
      cells := [];
      var x: nat := 0;
      while x < gridWidth
        invariant x <= gridWidth
        invariant cells == FreeCells(x, gridHeight, snake, avoid)
      {
        var y: nat := 0;
        while y < gridHeight
          invariant y <= gridHeight
          invariant cells == FreeCells(x, gridHeight, snake, avoid) + FreeInColumn(x, y, snake, avoid)
        {
          var occupied := Occupied(x, y);
          if avoid.Some? && avoid.value.x == x && avoid.value.y == y {
            occupied := true;
          }
          if !occupied {
            cells := cells + [Cell(x, y)];
          }
          y := y + 1;
        }
        x := x + 1;
      }
    }

    /** `gameOver`, without the storage write and the host callback. */
    method GameOver()
      modifies this`state, this`highScore
      ensures Snapshot() == EndGame(old(Snapshot()))
      ensures touchStart == old(touchStart) && lastTime == old(lastTime)
    {
      state := GameState.GameOver;
      if score > highScore {
        highScore := score;
      }
    }

    /** `generateFood`, with `roll` standing for `Math.random()`. */
    method GenerateFood(roll: real)
      requires 0.0 <= roll < 1.0
      modifies this`food, this`state, this`highScore
      ensures Snapshot() == PlaceFood(old(Snapshot()), gridWidth, gridHeight, roll)
      ensures touchStart == old(touchStart) && lastTime == old(lastTime)
    {
      var cells := AvailablePositions(None);
      if |cells| == 0 {
        GameOver();
        return;
      }
      food := Some(cells[Pick(roll, |cells|)]);
    }

    /** `generateSpecialFood`. */
    method GenerateSpecialFood(roll: real)
      requires 0.0 <= roll < 1.0
      modifies this`specialFood, this`specialFoodDuration
      ensures Snapshot() == PlaceSpecialFood(old(Snapshot()), gridWidth, gridHeight, roll)
      ensures touchStart == old(touchStart) && lastTime == old(lastTime)
    {
      var cells := AvailablePositions(food);
      if |cells| == 0 {
        return;
      }
      specialFood := Some(cells[Pick(roll, |cells|)]);
      specialFoodDuration := SpecialFoodLife;
    }

    /** `resetGame`. */
    method ResetGame(roll: real)
      requires Valid() && 0.0 <= roll < 1.0
      modifies this`snake, this`direction, this`nextDirection, this`score, this`speed, this`state, this`highScore,
               this`food, this`specialFood, this`specialFoodTimer, this`specialFoodDuration
      ensures Valid()
      ensures Snapshot() == Reset(old(Snapshot()), gridWidth, gridHeight, roll)
    {
      ghost var w := Snapshot();
      Respawn();
      GenerateFood(roll);
      specialFood := None;
      specialFoodTimer := 0.0;
      specialFoodDuration := 0.0;
      ResetSpec(w, gridWidth, gridHeight, roll);
    }

    /** The first half of `resetGame`: the new snake, heading and counters. */
    method Respawn()
      modifies this`snake, this`direction, this`nextDirection, this`score, this`speed, this`state
      ensures Snapshot() == Newborn(old(Snapshot()), gridHeight)
    {
      var row := gridHeight / 2;
      snake := [Cell(5, row), Cell(4, row), Cell(3, row)];
      direction := Right;
      nextDirection := Right;
      score := 0;
      speed := StartSpeed;
      state := Playing;
    }

    /** `moveSnake`, called by `update` while playing. */
    method MoveSnake(roll: real)
      requires |snake| >= 1 && 0.0 <= roll < 1.0
      modifies this
      ensures Snapshot() == Step(old(Snapshot()), gridWidth, gridHeight, roll)
      ensures touchStart == old(touchStart) && lastTime == old(lastTime)
    {
      ghost var w := Snapshot();
      direction := nextDirection;
      var head := Advance(snake[0], direction);
      ghost var turned := w.(direction := w.nextDirection);
      assert head == NextHead(w) && Snapshot() == turned;
      if head.x < 0 || head.x >= gridWidth || head.y < 0 || head.y >= gridHeight {
        GameOver();
        assert Step(w, gridWidth, gridHeight, roll) == EndGame(turned);
        return;
      }
      var hit := Occupied(head.x, head.y);
      if hit {
        GameOver();
        assert Step(w, gridWidth, gridHeight, roll) == EndGame(turned);
        return;
      }
      assert !Crashes(w, gridWidth, gridHeight);
      snake := [head] + snake;
      assert Snapshot() == Grow(w);
      var ateFood := TakeFood(head, roll);
      ghost var fed := Snapshot();
      var ateSpecial := TakeSpecialFood(head);
      if !(ateFood || ateSpecial) {
        snake := snake[..|snake| - 1];
      }
    }

    /** The food part of `moveSnake`: ten points, a new food and the speed
        check when the head is on the food. */
    method TakeFood(head: Cell, roll: real) returns (ate: bool)
      requires 0.0 <= roll < 1.0
      modifies this
      ensures ate <==> old(food) == Some(head)
      ensures Snapshot() == EatFood(old(Snapshot()), head, gridWidth, gridHeight, roll)
      ensures touchStart == old(touchStart) && lastTime == old(lastTime)
    {
      ate := false;
      if food.Some? && head.x == food.value.x && head.y == food.value.y {
        score := score + FoodPoints;
        food := None;
        assert Snapshot() == Swallow(old(Snapshot()));
        GenerateFood(roll);
        ate := true;
        if score % 50 == 0 {
          speed := Min(speed + 1, MaxSpeed);
        }
      }
    }

    /** The special-food part of `moveSnake`: fifty points and the special
        food disappears when the head is on it. */
    method TakeSpecialFood(head: Cell) returns (ate: bool)
      modifies this
      ensures ate <==> old(specialFood) == Some(head)
      ensures Snapshot() == EatSpecialFood(old(Snapshot()), head)
      ensures touchStart == old(touchStart) && lastTime == old(lastTime)
    {
      ate := false;
      if specialFood.Some? && head.x == specialFood.value.x && head.y == specialFood.value.y {
        score := score + SpecialFoodPoints;
        specialFood := None;
        ate := true;
      }
    }

    /** The special-food part of `update`: a present special food ages
        and vanishes at zero; otherwise the period timer runs, restarts at
        15000 ms and gives the 30% chance (`chanceRoll`) of a new one. */
    method UpdateSpecialFood(dt: real, chanceRoll: real, spotRoll: real)
      requires 0.0 <= spotRoll < 1.0
      modifies this
      ensures Snapshot() == SpecialFoodTick(old(Snapshot()), gridWidth, gridHeight, dt, chanceRoll, spotRoll)
      ensures touchStart == old(touchStart) && lastTime == old(lastTime)
    {
      if specialFood.Some? {
        specialFoodDuration := specialFoodDuration - dt;
        if specialFoodDuration <= 0.0 {
          specialFood := None;
        }
      } else {
        specialFoodTimer := specialFoodTimer + dt;
        if specialFoodTimer >= SpecialFoodPeriod {
          specialFoodTimer := 0.0;
          if chanceRoll < SpecialFoodChance {
            GenerateSpecialFood(spotRoll);
          }
        }
      }
    }

    /** `update(deltaTime)`, with `chanceRoll` the 30% draw, `spotRoll` the
        special food's cell and `foodRoll` the next food's cell. */
    method Update(dt: real, chanceRoll: real, spotRoll: real, foodRoll: real)
      requires state == Playing ==> |snake| >= 1 && StartSpeed <= speed <= MaxSpeed
      requires 0.0 <= spotRoll < 1.0 && 0.0 <= foodRoll < 1.0
      modifies this
      ensures Snapshot() == Tick(old(Snapshot()), gridWidth, gridHeight, dt, chanceRoll, spotRoll, foodRoll)
      ensures touchStart == old(touchStart) && lastTime == old(lastTime)
    {
      ghost var w := Snapshot();
      if state != Playing {
        return;
      }
      accumulator := accumulator + dt;
      assert Snapshot() == Accumulate(w, dt);
      UpdateSpecialFood(dt, chanceRoll, spotRoll);
      ghost var timed := Snapshot();
      var moveInterval := MoveInterval(speed);
      if accumulator >= moveInterval {
        accumulator := accumulator - moveInterval;
        assert Snapshot() == Pay(timed);
        MoveSnake(foodRoll);
      }
    }

    /** `animate(timestamp)`: the time since the previous frame drives
        `update` while playing; drawing is not modelled. */
    method Animate(timestamp: real, chanceRoll: real, spotRoll: real, foodRoll: real)
      requires Valid() && 0.0 <= spotRoll < 1.0 && 0.0 <= foodRoll < 1.0
      modifies this
      ensures Valid() && lastTime == timestamp && touchStart == old(touchStart)
      ensures Snapshot() == Tick(old(Snapshot()), gridWidth, gridHeight, timestamp - old(lastTime),
                              chanceRoll, spotRoll, foodRoll)
    {
      ghost var w := Snapshot();
      var deltaTime := timestamp - lastTime;
      lastTime := timestamp;
      if state == Playing {
        Update(deltaTime, chanceRoll, spotRoll, foodRoll);
      }
      TickWellFormed(w, gridWidth, gridHeight, deltaTime, chanceRoll, spotRoll, foodRoll);
    }

    /** `handleTouchStart` at canvas point (x, y): the back button asks to
        exit, the pause button toggles between playing and paused, any
        other touch on the start or game-over screen starts a new game,
        and otherwise the point is recorded as the start of a swipe. */
    method HandleTouchStart(x: real, y: real, roll: real) returns (exit: bool)
      requires Valid() && 0.0 <= roll < 1.0
      modifies this
      ensures Valid() && lastTime == old(lastTime)
      ensures exit <==> PointInRect(x, y, BackButton)
      ensures exit ==> Snapshot() == old(Snapshot()) && touchStart == old(touchStart)
      ensures !exit && PointInRect(x, y, pauseButton) && old(state) == Playing ==>
                Snapshot() == old(Snapshot()).(state := Paused) && touchStart == old(touchStart)
      ensures !exit && PointInRect(x, y, pauseButton) && old(state) == Paused ==>
                Snapshot() == old(Snapshot()).(state := Playing) && touchStart == old(touchStart)
      ensures !exit && !(PointInRect(x, y, pauseButton) && old(state) in {Playing, Paused})
              && old(state) in {Start, GameState.GameOver} ==>
                Snapshot() == Reset(old(Snapshot()), gridWidth, gridHeight, roll) && touchStart == old(touchStart)
      ensures !exit && !PointInRect(x, y, pauseButton) && old(state) in {Playing, Paused} ==>
                Snapshot() == old(Snapshot()) && touchStart == Some((x, y))
    {
      if PointInRect(x, y, BackButton) {
        return true;
      }
      if state == Playing && PointInRect(x, y, pauseButton) {
        state := Paused;
        return false;
      } else if state == Paused && PointInRect(x, y, pauseButton) {
        state := Playing;
        return false;
      }
      if state == Start {
        ResetGame(roll);
        return false;
      }
      if state == GameState.GameOver {
        ResetGame(roll);
        return false;
      }
      touchStart := Some((x, y));
      return false;
    }

    /** `handleTouchMove`: while playing, a long enough drag since the last
        recorded point turns the snake (never into its reverse), and the
        point becomes the new reference. Before any recorded touch the
        distances are not numbers in the original and no turn happens. */
    method HandleTouchMove(x: real, y: real)
      requires Valid()
      modifies this
      ensures Valid() && lastTime == old(lastTime)
      ensures old(state) != Playing ==> Snapshot() == old(Snapshot()) && touchStart == old(touchStart)
      ensures old(state) == Playing ==> touchStart == Some((x, y))
      ensures old(state) == Playing && old(touchStart).None? ==> Snapshot() == old(Snapshot())
      ensures old(state) == Playing && old(touchStart).Some? ==>
                Snapshot() == old(Snapshot()).(nextDirection :=
                  Turn(old(direction), old(nextDirection), x - old(touchStart).value.0, y - old(touchStart).value.1))
    {
      if state != Playing {
        return;
      }
      if touchStart.Some? {
        var dx := x - touchStart.value.0;
        var dy := y - touchStart.value.1;
        nextDirection := Turn(direction, nextDirection, dx, dy);
      }
      touchStart := Some((x, y));
    }
  }
}
