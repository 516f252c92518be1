/** The rules of the grid snake game (games/game1/main.js) as functions on a
    snapshot of the game object: one movement step, food placement, the
    frame update and the swipe rule, with the invariants they keep. */
module SnakeRules {
  import opened Common

  /** A grid cell `{x, y}`; y grows downward. */
  datatype Cell = Cell(x: int, y: int)

  const StartSpeed: int := 10
  const MaxSpeed: int := 20
  const FoodPoints: int := 10
  const SpecialFoodPoints: int := 50
  /** Milliseconds a special food stays on the board. */
  const SpecialFoodLife: real := 5000.0
  /** Milliseconds without special food between two chances to spawn one. */
  const SpecialFoodPeriod: real := 15000.0
  /** Probability of a special food at the end of each period. */
  const SpecialFoodChance: real := 0.3
  /** Minimal drag length, in pixels, for a swipe to turn the snake. */
  const SnakeSwipeDistance: real := 20.0

  /** The snapshot of the game object's simulation fields. */
  datatype World = World(
    state: GameState,
    score: int,
    highScore: int,
    speed: int,
    accumulator: real,
    snake: seq<Cell>,
    direction: Direction,
    nextDirection: Direction,
    food: Option<Cell>,
    specialFood: Option<Cell>,
    specialFoodTimer: real,
    specialFoodDuration: real)

  function AbsInt(v: int): int { if v < 0 then -v else v }

  /** The cell the head moves to (the `switch` in `moveSnake`). */
  function Advance(c: Cell, d: Direction): (r: Cell)
    ensures AbsInt(r.x - c.x) + AbsInt(r.y - c.y) == 1
    ensures (r.x < c.x <==> d == Left) && (r.x > c.x <==> d == Right)
    ensures (r.y < c.y <==> d == Up) && (r.y > c.y <==> d == Down)
  {
    match d
    case Up => Cell(c.x, c.y - 1)
    case Down => Cell(c.x, c.y + 1)
    case Left => Cell(c.x - 1, c.y)
    case Right => Cell(c.x + 1, c.y)
  }

  predicate InGrid(c: Cell, width: int, height: int)
  {
    0 <= c.x < width && 0 <= c.y < height
  }

  predicate AllInGrid(s: seq<Cell>, width: int, height: int)
  {
    forall i :: 0 <= i < |s| ==> InGrid(s[i], width, height)
  }

  predicate Distinct(s: seq<Cell>)
  {
    forall i, j :: 0 <= i < j < |s| ==> s[i] != s[j]
  }

  /** The invariant the game keeps: speed within [10, 20], no pending
      reversal, snake cells distinct and on the grid, food and special food
      on free grid cells. */
  predicate WellFormed(w: World, width: int, height: int)
  {
    && StartSpeed <= w.speed <= MaxSpeed
    && w.nextDirection != Opposite(w.direction)
    && AllInGrid(w.snake, width, height)
    && Distinct(w.snake)
    && (w.state != Start ==> |w.snake| >= 1)
    && (w.food.Some? ==> InGrid(w.food.value, width, height) && w.food.value !in w.snake)
    && (w.specialFood.Some? ==> InGrid(w.specialFood.value, width, height) && w.specialFood.value !in w.snake)
  }

  // ---------------------------------------------------------------------
  // Candidate cells for food (generateFood / generateSpecialFood)
  // ---------------------------------------------------------------------

  /** Whether a cell is taken: on the snake, or the cell to avoid besides
      (the ordinary food, when placing special food). */
  predicate Taken(c: Cell, snake: seq<Cell>, avoid: Option<Cell>)
  {
    c in snake || avoid == Some(c)
  }

  /** Free cells of column `x` among rows `0 .. y-1`, in increasing row order. */
  function FreeInColumn(x: int, y: nat, snake: seq<Cell>, avoid: Option<Cell>): seq<Cell>
  {
    if y == 0 then []
    else FreeInColumn(x, y - 1, snake, avoid)
         + (if Taken(Cell(x, y - 1), snake, avoid) then [] else [Cell(x, y - 1)])
  }

  /** Free cells of columns `0 .. x-1`, column by column: the order in which
      the nested loops push `availablePositions`. */
  function FreeCells(x: nat, height: nat, snake: seq<Cell>, avoid: Option<Cell>): seq<Cell>
  {
    if x == 0 then []
    else FreeCells(x - 1, height, snake, avoid) + FreeInColumn(x - 1, height, snake, avoid)
  }

  lemma {:induction false} FreeInColumnMembers(x: int, y: nat, snake: seq<Cell>, avoid: Option<Cell>, c: Cell)
    ensures c in FreeInColumn(x, y, snake, avoid) <==> c.x == x && 0 <= c.y < y && !Taken(c, snake, avoid)
  {
    if y > 0 {
      FreeInColumnMembers(x, y - 1, snake, avoid, c);
    }
  }

  /** The candidate list holds exactly the grid cells that are not taken. */
  lemma {:induction false} FreeCellsMembers(x: nat, height: nat, snake: seq<Cell>, avoid: Option<Cell>, c: Cell)
    ensures c in FreeCells(x, height, snake, avoid) <==> InGrid(c, x, height) && !Taken(c, snake, avoid)
  {
    if x > 0 {
      FreeCellsMembers(x - 1, height, snake, avoid, c);
      FreeInColumnMembers(x - 1, height, snake, avoid, c);
    }
  }

  /** Corollary used by the placement functions: every candidate is free. */
  lemma FreeCellsAt(width: nat, height: nat, snake: seq<Cell>, avoid: Option<Cell>, k: nat)
    requires k < |FreeCells(width, height, snake, avoid)|
    ensures InGrid(FreeCells(width, height, snake, avoid)[k], width, height)
    ensures !Taken(FreeCells(width, height, snake, avoid)[k], snake, avoid)
  {
    FreeCellsMembers(width, height, snake, avoid, FreeCells(width, height, snake, avoid)[k]);
  }

  // ---------------------------------------------------------------------
  // State changes
  // ---------------------------------------------------------------------

  /** The simulation part of `gameOver`: enter GameOver and keep the best score. */
  function EndGame(w: World): (r: World)
    ensures r.state == GameOver
    ensures r.highScore >= r.score && r.highScore >= w.highScore
    ensures r.highScore == w.highScore || r.highScore == w.score
    ensures r.(state := w.state, highScore := w.highScore) == w
  {
    w.(state := GameOver, highScore := Max(w.highScore, w.score))
  }

  /** `generateFood`: put the food on a free cell chosen by `roll`; with no
      free cell the game ends and nothing else changes. */
  function PlaceFood(w: World, width: nat, height: nat, roll: real): (r: World)
    requires 0.0 <= roll < 1.0
  {
    var cells := FreeCells(width, height, w.snake, None);
    if |cells| == 0 then EndGame(w)
    else w.(food := Some(cells[Pick(roll, |cells|)]))
  }

  lemma PlaceFoodSpec(w: World, width: nat, height: nat, roll: real)
    requires 0.0 <= roll < 1.0
    ensures var r := PlaceFood(w, width, height, roll);
      if exists c :: InGrid(c, width, height) && c !in w.snake then
        r.food.Some? && InGrid(r.food.value, width, height) && r.food.value !in w.snake
        && r == w.(food := r.food)
      else
        r == EndGame(w)
  {
    var cells := FreeCells(width, height, w.snake, None);
    if c :| InGrid(c, width, height) && c !in w.snake {
      FreeCellsMembers(width, height, w.snake, None, c);
      FreeCellsAt(width, height, w.snake, None, Pick(roll, |cells|));
    } else if |cells| > 0 {
      FreeCellsAt(width, height, w.snake, None, 0);
    }
  }

  /** `generateSpecialFood`: a free cell that is not the food, alive for
      5000 ms; with no such cell nothing changes. */
  function PlaceSpecialFood(w: World, width: nat, height: nat, roll: real): (r: World)
    requires 0.0 <= roll < 1.0
  {
    var cells := FreeCells(width, height, w.snake, w.food);
    if |cells| == 0 then w
    else w.(specialFood := Some(cells[Pick(roll, |cells|)]), specialFoodDuration := SpecialFoodLife)
  }

  lemma PlaceSpecialFoodSpec(w: World, width: nat, height: nat, roll: real)
    requires 0.0 <= roll < 1.0
    ensures var r := PlaceSpecialFood(w, width, height, roll);
      if exists c :: InGrid(c, width, height) && !Taken(c, w.snake, w.food) then
        r.specialFood.Some? && InGrid(r.specialFood.value, width, height)
        && !Taken(r.specialFood.value, w.snake, w.food)
        && r == w.(specialFood := r.specialFood, specialFoodDuration := SpecialFoodLife)
      else
        r == w
  {
    var cells := FreeCells(width, height, w.snake, w.food);
    if c :| InGrid(c, width, height) && !Taken(c, w.snake, w.food) {
      FreeCellsMembers(width, height, w.snake, w.food, c);
      FreeCellsAt(width, height, w.snake, w.food, Pick(roll, |cells|));
    } else if |cells| > 0 {
      FreeCellsAt(width, height, w.snake, w.food, 0);
    }
  }

  /** `resetGame`: a three-cell snake heading right in the middle row, fresh
      score and speed, new food, no special food. The accumulator and the
      best score are kept. */
  function Reset(w: World, width: nat, height: nat, roll: real): World
    requires 0.0 <= roll < 1.0
  {
    PlaceFood(Newborn(w, height), width, height, roll)
      .(specialFood := None, specialFoodTimer := 0.0, specialFoodDuration := 0.0)
  }

  /** The restarted game before its food is placed. */
  function Newborn(w: World, height: nat): World
  {
    var row := height / 2;
    w.(snake := [Cell(5, row), Cell(4, row), Cell(3, row)], direction := Right, nextDirection := Right,
       score := 0, speed := StartSpeed, state := Playing)
  }

  lemma ResetSpec(w: World, width: nat, height: nat, roll: real)
    requires width >= 6 && height >= 1 && 0.0 <= roll < 1.0
    ensures var r := Reset(w, width, height, roll);
      && WellFormed(r, width, height)
      && r.state == Playing && r.score == 0 && r.speed == StartSpeed
      && |r.snake| == 3 && r.direction == Right && r.nextDirection == Right
      && r.food.Some? && r.specialFood.None?
      && r.highScore == w.highScore
  {
    var row := height / 2;
    assert InGrid(Cell(0, row), width, height) && Cell(0, row) !in Newborn(w, height).snake;
    PlaceFoodSpec(Newborn(w, height), width, height, roll);
  }

  /** The cell the head would move to on the next step. */
  function NextHead(w: World): Cell
    requires |w.snake| >= 1
  {
    Advance(w.snake[0], w.nextDirection)
  }

  /** The new head leaves the grid or lands on a current segment, the tail
      included. */
  predicate Crashes(w: World, width: int, height: int)
    requires |w.snake| >= 1
  {
    !InGrid(NextHead(w), width, height) || NextHead(w) in w.snake
  }

  /** Every fifth food (score a multiple of 50) raises the speed, up to 20. */
  function SpeedUp(w: World): World
  {
    if w.score % 50 == 0 then w.(speed := Min(w.speed + 1, MaxSpeed)) else w
  }

  /** The snake after taking the pending turn and pushing the new head. */
  function Grow(w: World): World
    requires |w.snake| >= 1
  {
    w.(direction := w.nextDirection, snake := [NextHead(w)] + w.snake)
  }

  /** The food eaten: ten points and no food until a new one is placed. */
  function Swallow(w: World): World
  {
    w.(score := w.score + FoodPoints, food := None)
  }

  /** Eating the ordinary food at `head`: ten points, a new food, and the
      speed check; nothing when the food is elsewhere. */
  function EatFood(w: World, head: Cell, width: nat, height: nat, roll: real): World
    requires 0.0 <= roll < 1.0
  {
    if w.food == Some(head) then SpeedUp(PlaceFood(Swallow(w), width, height, roll)) else w
  }

  /** Eating the special food at `head`: fifty points and it disappears. */
  function EatSpecialFood(w: World, head: Cell): World
  {
    if w.specialFood == Some(head) then w.(score := w.score + SpecialFoodPoints, specialFood := None) else w
  }

  /** `moveSnake`: turn to `nextDirection`, end the game on a crash,
      otherwise push the new head, eat, and drop the tail unless something
      was eaten. */
  function Step(w: World, width: nat, height: nat, roll: real): World
    requires |w.snake| >= 1 && 0.0 <= roll < 1.0
  {
    var head := NextHead(w);
    if Crashes(w, width, height) then EndGame(w.(direction := w.nextDirection))
    else
      var fed := EatFood(Grow(w), head, width, height, roll);
      var feasted := EatSpecialFood(fed, head);
      if w.food == Some(head) || fed.specialFood == Some(head) then feasted else DropTail(feasted)
  }

  /** The snake without its last segment. */
  function DropTail(w: World): World
    requires |w.snake| >= 1
  {
    w.(snake := w.snake[..|w.snake| - 1])
  }

  /** A crash ends the game and leaves the snake, score and speed as they
      were; the direction still takes the pending turn. */
  lemma StepCrash(w: World, width: nat, height: nat, roll: real)
    requires |w.snake| >= 1 && 0.0 <= roll < 1.0
    requires Crashes(w, width, height)
    ensures var r := Step(w, width, height, roll);
      && r.state == GameOver && r.snake == w.snake && r.score == w.score && r.speed == w.speed
      && r.direction == w.nextDirection && r.food == w.food && r.specialFood == w.specialFood
  {
  }

  /** A step without crash adds the new head in front, keeps the whole body
      when food or special food was eaten and drops the tail otherwise;
      food scores 10 and special food 50. */
  lemma StepMove(w: World, width: nat, height: nat, roll: real)
    requires |w.snake| >= 1 && 0.0 <= roll < 1.0
    requires !Crashes(w, width, height)
    ensures var r := Step(w, width, height, roll);
      var head := NextHead(w);
      var ateFood := w.food == Some(head);
      var ateSpecial := w.specialFood == Some(head);
      && r.snake == [head] + (if ateFood || ateSpecial then w.snake else w.snake[..|w.snake| - 1])
      && |r.snake| == |w.snake| + (if ateFood || ateSpecial then 1 else 0)
      && r.score == w.score + (if ateFood then FoodPoints else 0) + (if ateSpecial then SpecialFoodPoints else 0)
      && r.direction == w.nextDirection && r.nextDirection == w.nextDirection
      && (ateSpecial ==> r.specialFood == None)
      && (!ateFood ==> r.state == w.state && r.food == w.food)
  {
  }

  /** Speed only changes on a food step whose new score is a multiple of
      50, by one, never above 20. */
  lemma StepSpeed(w: World, width: nat, height: nat, roll: real)
    requires |w.snake| >= 1 && 0.0 <= roll < 1.0 && w.speed <= MaxSpeed
    ensures var r := Step(w, width, height, roll);
      var speedsUp := !Crashes(w, width, height) && w.food == Some(NextHead(w))
                      && (w.score + FoodPoints) % 50 == 0;
      && r.speed == (if speedsUp then Min(w.speed + 1, MaxSpeed) else w.speed)
      && w.speed <= r.speed <= MaxSpeed
  {
    if !Crashes(w, width, height) && w.food == Some(NextHead(w)) {
      var head := NextHead(w);
      var placed := PlaceFood(Swallow(Grow(w)), width, height, roll);
      assert placed.speed == w.speed && placed.score == w.score + FoodPoints;
    }
  }

  lemma DistinctCons(head: Cell, s: seq<Cell>)
    requires Distinct(s) && head !in s
    ensures Distinct([head] + s)
  {
    forall i, j | 0 <= i < j < |[head] + s| ensures ([head] + s)[i] != ([head] + s)[j] {
      if i > 0 {
        assert ([head] + s)[i] == s[i - 1] && ([head] + s)[j] == s[j - 1];
      } else {
        assert ([head] + s)[j] == s[j - 1];
      }
    }
  }

  /** The grown snake is on the grid and without repeats when the step
      does not crash. */
  lemma GrowBody(w: World, width: nat, height: nat)
    requires WellFormed(w, width, height) && |w.snake| >= 1 && !Crashes(w, width, height)
    ensures Grow(w).snake == [NextHead(w)] + w.snake
    ensures AllInGrid(Grow(w).snake, width, height) && Distinct(Grow(w).snake)
  {
    var head := NextHead(w);
    var body := [head] + w.snake;
    DistinctCons(head, w.snake);
    forall i | 0 <= i < |body| ensures InGrid(body[i], width, height) {
      if i > 0 { assert body[i] == w.snake[i - 1]; }
    }
  }

  /** After the head is pushed and whatever lies there is eaten, the
      invariant holds: the head was checked before it was added and the
      food left in place is elsewhere. */
  lemma FeastWellFormed(w: World, width: nat, height: nat, roll: real)
    requires WellFormed(w, width, height) && w.state == Playing && 0.0 <= roll < 1.0
    requires !Crashes(w, width, height)
    ensures WellFormed(EatSpecialFood(EatFood(Grow(w), NextHead(w), width, height, roll), NextHead(w)), width, height)
  {
    GrowBody(w, width, height);
    if w.food == Some(NextHead(w)) {
      FeastOnFoodWellFormed(w, width, height, roll);
    }
  }

  /** The food case of `FeastWellFormed`: the new food avoids the grown
      snake, or the board is full and the game ends. */
  lemma FeastOnFoodWellFormed(w: World, width: nat, height: nat, roll: real)
    requires WellFormed(w, width, height) && w.state == Playing && 0.0 <= roll < 1.0
    requires !Crashes(w, width, height) && w.food == Some(NextHead(w))
    requires AllInGrid(Grow(w).snake, width, height) && Distinct(Grow(w).snake)
    ensures WellFormed(EatSpecialFood(EatFood(Grow(w), NextHead(w), width, height, roll), NextHead(w)), width, height)
  {
    PlaceFoodSpec(Swallow(Grow(w)), width, height, roll);
  }

  /** Dropping the tail of a snake of two or more keeps the invariant. */
  lemma DropTailWellFormed(w: World, width: nat, height: nat)
    requires WellFormed(w, width, height) && |w.snake| >= 2
    ensures WellFormed(DropTail(w), width, height)
  {
    var short := w.snake[..|w.snake| - 1];
    assert forall c :: c in short ==> c in w.snake;
    assert forall i :: 0 <= i < |short| ==> short[i] == w.snake[i];
  }

  /** While playing, a step keeps the invariant: the head is checked before
      it is added, and the only removal is the tail. */
  lemma StepWellFormed(w: World, width: nat, height: nat, roll: real)
    requires WellFormed(w, width, height) && w.state == Playing && 0.0 <= roll < 1.0
    ensures WellFormed(Step(w, width, height, roll), width, height)
  {
    if !Crashes(w, width, height) {
      var head := NextHead(w);
      FeastWellFormed(w, width, height, roll);
      var fed := EatFood(Grow(w), head, width, height, roll);
      if !(w.food == Some(head) || fed.specialFood == Some(head)) {
        assert fed == Grow(w);
        DropTailWellFormed(EatSpecialFood(fed, head), width, height);
      }
    }
  }

  // ---------------------------------------------------------------------
  // The frame update and the swipe rule
  // ---------------------------------------------------------------------

  /** Milliseconds between two steps, `1000 / speed`, for each speed the
      game can reach (10 to 20 cells per second). */
  const Intervals: seq<real> := [1000.0 / 10.0, 1000.0 / 11.0, 1000.0 / 12.0, 1000.0 / 13.0,
                                 1000.0 / 14.0, 1000.0 / 15.0, 1000.0 / 16.0, 1000.0 / 17.0,
                                 1000.0 / 18.0, 1000.0 / 19.0, 1000.0 / 20.0]

  function MoveInterval(speed: int): real
    requires StartSpeed <= speed <= MaxSpeed
  {
    Intervals[speed - StartSpeed]
  }

  /** The table holds `1000 / speed`: a step every `MoveInterval(speed)`
      milliseconds is `speed` steps per second. */
  lemma MoveIntervalExact(speed: int)
    requires StartSpeed <= speed <= MaxSpeed
    ensures MoveInterval(speed) * (speed as real) == 1000.0
    ensures MoveInterval(speed) > 0.0
  {
  }

  /** The special-food bookkeeping at the start of `update`: a present
      special food ages and disappears at zero; otherwise the period timer
      runs and, when it reaches 15000 ms, restarts and gives one chance. */
  function SpecialFoodTick(w: World, width: nat, height: nat, dt: real, chanceRoll: real, spotRoll: real): World
    requires 0.0 <= spotRoll < 1.0
  {
    if w.specialFood.Some? then
      var left := w.specialFoodDuration - dt;
      w.(specialFoodDuration := left, specialFood := if left <= 0.0 then None else w.specialFood)
    else if w.specialFoodTimer + dt >= SpecialFoodPeriod then
      var restarted := w.(specialFoodTimer := 0.0);
      if chanceRoll < SpecialFoodChance then PlaceSpecialFood(restarted, width, height, spotRoll) else restarted
    else
      w.(specialFoodTimer := w.specialFoodTimer + dt)
  }

  /** `update(deltaTime)`: nothing unless playing; otherwise accumulate the
      elapsed time, tick the special food, and make at most one step when a
      whole move interval has accumulated. */
  function Tick(w: World, width: nat, height: nat, dt: real, chanceRoll: real, spotRoll: real, foodRoll: real): World
    requires 0.0 <= spotRoll < 1.0 && 0.0 <= foodRoll < 1.0
    requires w.state == Playing ==> |w.snake| >= 1 && StartSpeed <= w.speed <= MaxSpeed
  {
    if w.state != Playing then w
    else StepIfDue(SpecialFoodTick(Accumulate(w, dt), width, height, dt, chanceRoll, spotRoll), width, height, foodRoll)
  }

  /** The elapsed frame time added to the accumulator. */
  function Accumulate(w: World, dt: real): World
  {
    w.(accumulator := w.accumulator + dt)
  }

  /** The accumulator after paying for one step. */
  function Pay(w: World): World
    requires StartSpeed <= w.speed <= MaxSpeed
  {
    w.(accumulator := w.accumulator - MoveInterval(w.speed))
  }

  /** The end of `update`: one step, paid for by one move interval, when
      the accumulator holds at least that much. */
  function StepIfDue(w: World, width: nat, height: nat, foodRoll: real): World
    requires 0.0 <= foodRoll < 1.0 && |w.snake| >= 1 && StartSpeed <= w.speed <= MaxSpeed
  {
    if w.accumulator >= MoveInterval(w.speed) then Step(Pay(w), width, height, foodRoll) else w
  }

  /** A step never touches the special-food timers or the accumulator and
      never creates special food. */
  lemma StepKeepsTimers(w: World, width: nat, height: nat, roll: real)
    requires |w.snake| >= 1 && 0.0 <= roll < 1.0
    ensures var r := Step(w, width, height, roll);
      && r.accumulator == w.accumulator
      && r.specialFoodTimer == w.specialFoodTimer
      && r.specialFoodDuration == w.specialFoodDuration
      && (w.specialFood.None? ==> r.specialFood.None?)
  {
    if !Crashes(w, width, height) && w.food == Some(NextHead(w)) {
      var head := NextHead(w);
      var placed := PlaceFood(Swallow(Grow(w)), width, height, roll);
      assert placed.specialFood == w.specialFood && placed.accumulator == w.accumulator;
      assert placed.specialFoodTimer == w.specialFoodTimer && placed.specialFoodDuration == w.specialFoodDuration;
    }
  }

  /** `update` does nothing unless the game is playing. */
  lemma TickIdle(w: World, width: nat, height: nat, dt: real, chanceRoll: real, spotRoll: real, foodRoll: real)
    requires 0.0 <= spotRoll < 1.0 && 0.0 <= foodRoll < 1.0
    requires w.state != Playing
    ensures Tick(w, width, height, dt, chanceRoll, spotRoll, foodRoll) == w
  {
  }

  /** The end of `update` on its own: when due it pays one interval and
      steps, otherwise it changes nothing; either way the special-food
      clock is left alone. */
  lemma StepIfDueTimers(w: World, width: nat, height: nat, foodRoll: real)
    requires 0.0 <= foodRoll < 1.0 && |w.snake| >= 1 && StartSpeed <= w.speed <= MaxSpeed
    ensures var r := StepIfDue(w, width, height, foodRoll);
      && (w.accumulator >= MoveInterval(w.speed) ==> r.accumulator == w.accumulator - MoveInterval(w.speed))
      && (w.accumulator < MoveInterval(w.speed) ==> r == w)
      && r.specialFoodTimer == w.specialFoodTimer
      && r.specialFoodDuration == w.specialFoodDuration
      && (w.specialFood.None? ==> r.specialFood.None?)
  {
    if w.accumulator >= MoveInterval(w.speed) {
      StepKeepsTimers(Pay(w), width, height, foodRoll);
    }
  }

  /** The special-food bookkeeping on its own: it changes only the special
      food and its two timers, as the three cases of `update` say. */
  lemma SpecialFoodTickFrame(w: World, width: nat, height: nat, dt: real, chanceRoll: real, spotRoll: real)
    requires 0.0 <= spotRoll < 1.0
    ensures var r := SpecialFoodTick(w, width, height, dt, chanceRoll, spotRoll);
      && r == w.(specialFood := r.specialFood, specialFoodTimer := r.specialFoodTimer,
                 specialFoodDuration := r.specialFoodDuration)
      && (w.specialFood.Some? ==>
            && r.specialFoodDuration == w.specialFoodDuration - dt
            && r.specialFoodTimer == w.specialFoodTimer
            && (w.specialFoodDuration - dt <= 0.0 ==> r.specialFood == None))
      && (w.specialFood.None? ==>
            && (w.specialFoodTimer + dt >= SpecialFoodPeriod ==> r.specialFoodTimer == 0.0)
            && (w.specialFoodTimer + dt < SpecialFoodPeriod ==>
                  r.specialFoodTimer == w.specialFoodTimer + dt && r.specialFood == None))
  {
  }

  /** At most one step per call: a step happens exactly when a whole move
      interval has accumulated, and the interval is then subtracted. */
  lemma TickAccumulator(w: World, width: nat, height: nat, dt: real, chanceRoll: real, spotRoll: real, foodRoll: real)
    requires 0.0 <= spotRoll < 1.0 && 0.0 <= foodRoll < 1.0
    requires w.state == Playing && |w.snake| >= 1 && StartSpeed <= w.speed <= MaxSpeed
    ensures var r := Tick(w, width, height, dt, chanceRoll, spotRoll, foodRoll);
      var due := w.accumulator + dt >= MoveInterval(w.speed);
      && (due ==> r.accumulator == w.accumulator + dt - MoveInterval(w.speed))
      && (!due ==> r.accumulator == w.accumulator + dt && r.snake == w.snake
                   && r.score == w.score && r.state == Playing)
  {
    SpecialFoodTickFrame(Accumulate(w, dt), width, height, dt, chanceRoll, spotRoll);
    StepIfDueTimers(SpecialFoodTick(Accumulate(w, dt), width, height, dt, chanceRoll, spotRoll), width, height, foodRoll);
  }

  /** The special-food clock: a present special food loses `dt` of life and
      is cleared at zero; otherwise the period timer runs and restarts at 0
      once it reaches 15000 ms. */
  lemma TickSpecialFood(w: World, width: nat, height: nat, dt: real, chanceRoll: real, spotRoll: real, foodRoll: real)
    requires 0.0 <= spotRoll < 1.0 && 0.0 <= foodRoll < 1.0
    requires w.state == Playing && |w.snake| >= 1 && StartSpeed <= w.speed <= MaxSpeed
    ensures var r := Tick(w, width, height, dt, chanceRoll, spotRoll, foodRoll);
      && (w.specialFood.Some? ==>
            && r.specialFoodDuration == w.specialFoodDuration - dt
            && r.specialFoodTimer == w.specialFoodTimer
            && (w.specialFoodDuration - dt <= 0.0 ==> r.specialFood == None))
      && (w.specialFood.None? ==>
            && (w.specialFoodTimer + dt >= SpecialFoodPeriod ==> r.specialFoodTimer == 0.0)
            && (w.specialFoodTimer + dt < SpecialFoodPeriod ==>
                  r.specialFoodTimer == w.specialFoodTimer + dt && r.specialFood == None))
  {
    SpecialFoodTickFrame(Accumulate(w, dt), width, height, dt, chanceRoll, spotRoll);
    StepIfDueTimers(SpecialFoodTick(Accumulate(w, dt), width, height, dt, chanceRoll, spotRoll), width, height, foodRoll);
  }

  /** The special-food bookkeeping keeps the invariant and touches nothing
      but the special food and its two timers. */
  lemma SpecialFoodTickWellFormed(w: World, width: nat, height: nat, dt: real, chanceRoll: real, spotRoll: real)
    requires 0.0 <= spotRoll < 1.0 && WellFormed(w, width, height)
    ensures var r := SpecialFoodTick(w, width, height, dt, chanceRoll, spotRoll);
      && WellFormed(r, width, height)
      && r == w.(specialFood := r.specialFood, specialFoodTimer := r.specialFoodTimer,
                 specialFoodDuration := r.specialFoodDuration)
  {
    if w.specialFood.None? && w.specialFoodTimer + dt >= SpecialFoodPeriod && chanceRoll < SpecialFoodChance {
      PlaceSpecialFoodSpec(w.(specialFoodTimer := 0.0), width, height, spotRoll);
    }
  }

  /** The invariant does not look at the accumulator. */
  lemma WellFormedAnyAccumulator(w: World, width: nat, height: nat, a: real)
    requires WellFormed(w, width, height)
    ensures WellFormed(w.(accumulator := a), width, height)
  {
    assert w.(accumulator := a).snake == w.snake;
  }

  /** A due step keeps the invariant while playing. */
  lemma StepIfDueWellFormed(w: World, width: nat, height: nat, foodRoll: real)
    requires 0.0 <= foodRoll < 1.0 && WellFormed(w, width, height) && w.state == Playing
    ensures WellFormed(StepIfDue(w, width, height, foodRoll), width, height)
  {
    if w.accumulator >= MoveInterval(w.speed) {
      WellFormedAnyAccumulator(w, width, height, w.accumulator - MoveInterval(w.speed));
      StepWellFormed(Pay(w), width, height, foodRoll);
    }
  }

  /** The frame update keeps the invariant. */
  lemma TickWellFormed(w: World, width: nat, height: nat, dt: real, chanceRoll: real, spotRoll: real, foodRoll: real)
    requires 0.0 <= spotRoll < 1.0 && 0.0 <= foodRoll < 1.0
    requires WellFormed(w, width, height)
    ensures WellFormed(Tick(w, width, height, dt, chanceRoll, spotRoll, foodRoll), width, height)
  {
    if w.state == Playing {
      WellFormedAnyAccumulator(w, width, height, w.accumulator + dt);
      SpecialFoodTickWellFormed(Accumulate(w, dt), width, height, dt, chanceRoll, spotRoll);
      StepIfDueWellFormed(SpecialFoodTick(Accumulate(w, dt), width, height, dt, chanceRoll, spotRoll), width, height, foodRoll);
    }
  }

  /** `handleTouchMove`'s turn: a swipe sets the next direction unless it
      is the reverse of the current direction. */
  function Turn(direction: Direction, nextDirection: Direction, dx: real, dy: real): (r: Direction)
    ensures nextDirection != Opposite(direction) ==> r != Opposite(direction)
    ensures r != nextDirection ==> Swipe(dx, dy, SnakeSwipeDistance) == Some(r)
    ensures (Swipe(dx, dy, SnakeSwipeDistance).Some? && Swipe(dx, dy, SnakeSwipeDistance).value != Opposite(direction))
              ==> r == Swipe(dx, dy, SnakeSwipeDistance).value
  {
    match Swipe(dx, dy, SnakeSwipeDistance)
    case None => nextDirection
    case Some(d) => if d == Opposite(direction) then nextDirection else d
  }
}
