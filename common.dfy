/** Vocabulary shared by the three games: optional values, the game-state
    enumeration, the four swipe directions, screen rectangles and the
    translation of a random draw in [0, 1) into a list index. */
module Common {

  datatype Option<T> = None | Some(value: T)

  /** The `state` string of every game: 'start', 'playing', 'paused', 'gameover'.
      Only the snake game ever enters Paused. */
  datatype GameState = Start | Playing | Paused | GameOver

  /** The direction strings 'up', 'down', 'left', 'right'. */
  datatype Direction = Up | Down | Left | Right

  function Opposite(d: Direction): (r: Direction)
    ensures r != d
  {
    match d
    case Up => Down
    case Down => Up
    case Left => Right
    case Right => Left
  }

  /** An axis-aligned rectangle in canvas coordinates: top-left corner and size. */
  datatype Rect = Rect(x: real, y: real, width: real, height: real)

  /** `isPointInRect`: the borders count as inside. */
  predicate PointInRect(px: real, py: real, r: Rect)
  {
    r.x <= px <= r.x + r.width && r.y <= py <= r.y + r.height
  }

  /** The back button every game draws in its top-left corner. */
  const BackButton: Rect := Rect(20.0, 20.0, 40.0, 40.0)

  function Abs(v: real): (r: real)
    ensures r >= 0.0 && (r == v || r == -v)
  {
    if v < 0.0 then -v else v
  }

  function Min(a: int, b: int): (r: int)
    ensures r <= a && r <= b && (r == a || r == b)
  {
    if a < b then a else b
  }

  function Max(a: int, b: int): (r: int)
    ensures r >= a && r >= b && (r == a || r == b)
  {
    if a < b then b else a
  }

  function MinReal(a: real, b: real): (r: real)
    ensures r <= a && r <= b && (r == a || r == b)
  {
    if a < b then a else b
  }

  function MaxReal(a: real, b: real): (r: real)
    ensures r >= a && r >= b && (r == a || r == b)
  {
    if a < b then b else a
  }

  /** Concatenation regrouped, for appending to a growing list. */
  lemma ConcatAssoc<T>(a: seq<T>, b: seq<T>, c: seq<T>)
    ensures a + (b + c) == (a + b) + c
  {
  }

  /** `Math.floor(Math.random() * n)`: the index a draw `roll` in [0, 1)
      selects among `n` candidates. */
  function Pick(roll: real, n: nat): (k: nat)
    requires 0.0 <= roll < 1.0 && n > 0
    ensures k < n
    ensures (k as real) <= roll * (n as real) < (k as real) + 1.0
  {
    var p := roll * (n as real);
    ProductSigns(roll, n as real);
    ProductSigns(1.0 - roll, n as real);
    assert (n as real) - p == (1.0 - roll) * (n as real);
    p.Floor
  }

  lemma ProductSigns(a: real, b: real)
    requires a >= 0.0 && b > 0.0
    ensures a * b >= 0.0 && (a > 0.0 ==> a * b > 0.0)
  {
  }

  /** The swipe classification shared by the snake and the tile games: a
      drag counts when its dominant axis is longer than `minDistance`;
      downward and rightward are the positive axes of the canvas. */
  function Swipe(dx: real, dy: real, minDistance: real): (r: Option<Direction>)
    requires minDistance >= 0.0
    ensures r == Some(Right) ==> dx > minDistance && dx > Abs(dy)
    ensures r == Some(Left) ==> -dx > minDistance && -dx > Abs(dy)
    ensures r == Some(Down) ==> dy > minDistance && dy > Abs(dx)
    ensures r == Some(Up) ==> -dy > minDistance && -dy > Abs(dx)
    ensures r == None <==> !(Abs(dx) > Abs(dy) && Abs(dx) > minDistance) && !(Abs(dy) > Abs(dx) && Abs(dy) > minDistance)
  {
    if Abs(dx) > Abs(dy) && Abs(dx) > minDistance then
      (if dx > 0.0 then Some(Right) else Some(Left))
    else if Abs(dy) > Abs(dx) && Abs(dy) > minDistance then
      (if dy > 0.0 then Some(Down) else Some(Up))
    else
      None
  }
}
