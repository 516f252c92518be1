/** The 2048 game object of games/game2/main.js: a 4 x 4 grid updated in
    place by the four move routines, random tiles, the `canMove` scan, the
    frame update and the touch handlers. Every method is proved to move the
    object's snapshot exactly as the corresponding function of `TileRules`
    does. */
module TileGame {
  import opened Common
  import opened TileRules

  class Game {
    /** `grid[i][j]`: row i, column j; 0 is an empty cell. */
    const grid: array2<int>

    var state: GameState
    var score: int
    var highScore: int
    var animating: bool
    var animations: seq<Animation>
    var lastTime: real
    /** `touchStartX`/`touchStartY`; None when unset or cleared to null. */
    var touchStart: Option<(real, real)>

    ghost predicate Fits()
    {
      grid.Length0 == Size && grid.Length1 == Size
    }

    /** The grid as a row-major sequence of 16 cells. */
    ghost function Board(): seq<int>
      requires Fits()
      reads grid
    {
      seq(16, k requires 0 <= k < 16 reads grid => grid[k / 4, k % 4])
    }

    /** The simulation fields as a value. */
    ghost function Snapshot(): Play
      requires Fits()
      reads this, grid
    {
      Play(state, score, highScore, Board(), animating, animations)
    }

    ghost predicate Valid()
      reads this, grid
    {
      Fits() && AllTiles(Board())
    }

    /** The constructor and `init`: a start screen and the best score loaded
        from storage (`savedHighScore`, 0 when nothing was stored). */
    constructor (savedHighScore: int)
      ensures Valid() && fresh(grid)
      ensures Snapshot() == Play(Start, 0, savedHighScore, EmptyBoard, false, [])
      ensures lastTime == 0.0 && touchStart == None
    {
      grid := new int[Size, Size]((i, j) => 0);
      state := Start;
      score := 0;
      highScore := savedHighScore;
      animating := false;
      animations := [];
      lastTime := 0.0;
      touchStart := None;
      new;
      assert Board() == EmptyBoard;
    }

    /** One cell write `grid[i][j] = v`. */
    method SetCell(i: nat, j: nat, v: int)
      requires Fits() && i < Size && j < Size
      modifies grid
      ensures Board() == old(Board())[4 * i + j := v]
    {
      grid[i, j] := v;
      assert forall k :: 0 <= k < 16 && k != 4 * i + j ==>
        k / 4 != i || k % 4 != j;
    }

    /** A grid cell read through a line of the board. */
    lemma CellOnLine(b: seq<int>, d: Direction, l: nat, line: seq<int>, q: nat)
      requires Fits() && IsBoard(b) && l < Size && |line| == Size && q < Size
      requires Board() == SetLine(b, d, l, line)
      ensures grid[Row(d, l, q), Col(d, l, q)] == line[q]
    {
      SetLineAt(b, d, l, line, Index(d, l, q));
      LineOfIndex(d, l, q);
      assert grid[Row(d, l, q), Col(d, l, q)] == Board()[Index(d, l, q)];
    }

    /** The nested loops of `addRandomTile` that list the empty cells, in
        row-major order; cell (i, j) is listed as the index 4*i + j. */
    method EmptyCellList() returns (cells: seq<nat>)
      requires Fits()
      ensures cells == EmptyCells(Board(), 16)
    {
      ghost var board := Board();
      cells := [];
      var i: nat := 0;
      while i < Size
        invariant i <= Size
        invariant cells == EmptyCells(board, 4 * i)
      {
        var j: nat := 0;
        while j < Size
          invariant j <= Size
          invariant cells == EmptyCells(board, 4 * i + j)
        {
          assert board[4 * i + j] == grid[i, j];
          if grid[i, j] == 0 {
            cells := cells + [4 * i + j];
          }
          j := j + 1;
        }
        i := i + 1;
      }
    }

    /** `addRandomTile`, with `cellRoll` choosing the empty cell and
        `valueRoll` the 90% draw of a 2 over a 4. */
    method AddRandomTile(cellRoll: real, valueRoll: real)
      requires Fits() && 0.0 <= cellRoll < 1.0
      modifies this`animations, grid
      ensures Snapshot() == AddTile(old(Snapshot()), cellRoll, valueRoll)
    {
      var cells := EmptyCellList();
      if |cells| == 0 {
        return;
      }
      var k := cells[Pick(cellRoll, |cells|)];
      SetCell(k / 4, k % 4, NewTile(valueRoll));
      animations := animations + [Appear(k / 4, k % 4, 0.0, AppearDuration)];
    }

    /** The two writes of a step or a merge: position `pos - 1` of line `l`
        receives `v` and position `pos` is emptied. */
    method WritePair(d: Direction, l: nat, pos: nat, v: int, ghost b: seq<int>, ghost line: seq<int>)
      requires Fits() && IsBoard(b) && l < Size && 0 < pos < Size && |line| == Size
      requires Board() == SetLine(b, d, l, line)
      modifies grid
      ensures Board() == SetLine(b, d, l, line[pos - 1 := v][pos := 0])
    {
      SetCell(Row(d, l, pos - 1), Col(d, l, pos - 1), v);
      SetLineUpdate(b, d, l, line, pos - 1, v);
      SetCell(Row(d, l, pos), Col(d, l, pos), 0);
      SetLineUpdate(b, d, l, line[pos - 1 := v], pos, 0);
    }

    /** One step of the `while` loop that slides the tile first found at
        position `p` of line `l`: it moves from `pos` into the empty cell
        `pos - 1`, and a move animation from `p` to `pos - 1` is pushed. */
    method StepTile(d: Direction, l: nat, p: nat, pos: nat, ghost b: seq<int>, ghost line: seq<int>, ghost done: seq<Event>)
      requires Fits() && IsBoard(b) && l < Size && 0 < pos <= p < Size && |line| == Size
      requires Board() == SetLine(b, d, l, line)
      requires grid[Row(d, l, pos - 1), Col(d, l, pos - 1)] == 0
      modifies this`animations, grid
      ensures var next := line[pos - 1 := line[pos]][pos := 0];
        && Board() == SetLine(b, d, l, next)
        && Slide(next, pos - 1, p, done + [Shift(p, pos - 1)]) == Slide(line, pos, p, done)
      ensures animations == old(animations) + Animations(d, l, [Shift(p, pos - 1)])
    {
      CellOnLine(b, d, l, line, pos - 1);
      CellOnLine(b, d, l, line, pos);
      WritePair(d, l, pos, grid[Row(d, l, pos), Col(d, l, pos)], b, line);
      var move := Move(Row(d, l, p), Col(d, l, p), Row(d, l, pos - 1), Col(d, l, pos - 1), 0.0, MoveDuration);
      assert Animations(d, l, [Shift(p, pos - 1)]) == [move];
      animations := animations + [move];
    }

    /** The `while` loop of a move toward `d`: the tile at position `p` of
        line `l` steps toward the edge while the next cell is empty, with a
        move animation per step; `pos` is where it stops. */
    method SlideTile(d: Direction, l: nat, p: nat) returns (pos: nat)
      requires Fits() && l < Size && 0 < p < Size
      modifies this`animations, grid
      ensures var s := Slide(Line(old(Board()), d, l), p, p, []);
        && pos == s.at
        && Board() == SetLine(old(Board()), d, l, s.cells)
        && animations == old(animations) + Animations(d, l, s.events)
    {
      ghost var b := Board();
      ghost var c := Line(b, d, l);
      SetLineOfLine(b, d, l);
      ghost var line := c;
      ghost var done: seq<Event> := [];
      pos := p;
      while pos > 0 && grid[Row(d, l, pos - 1), Col(d, l, pos - 1)] == 0
        invariant 0 <= pos <= p && |line| == Size
        invariant Board() == SetLine(b, d, l, line)
        invariant Slide(line, pos, p, done) == Slide(c, p, p, [])
        invariant animations == old(animations) + Animations(d, l, done)
        decreases pos
      {
        StepTile(d, l, p, pos, b, line, done);
        AnimationsConcat(d, l, done, [Shift(p, pos - 1)]);
        ConcatAssoc(old(animations), Animations(d, l, done), Animations(d, l, [Shift(p, pos - 1)]));
        line := line[pos - 1 := line[pos]][pos := 0];
        done := done + [Shift(p, pos - 1)];
        pos := pos - 1;
      }
      if pos > 0 {
        CellOnLine(b, d, l, line, pos - 1);
      }
    }

    /** The merge test after the slide: a tile at `pos` equal to its
        neighbour toward the edge doubles that neighbour, empties its own
        cell, scores the doubled value and pushes a merge animation. */
    method MergeTile(d: Direction, l: nat, p: nat, pos: nat) returns (merged: bool)
      requires Fits() && l < Size && p < Size && pos < Size
      modifies this`score, this`animations, grid
      ensures var m := MergeAt(Line(old(Board()), d, l), pos, p);
        && Board() == SetLine(old(Board()), d, l, m.cells)
        && score == old(score) + m.gain
        && animations == old(animations) + Animations(d, l, m.events)
        && (merged <==> m.events != [])
    {
      ghost var b := Board();
      ghost var c := Line(b, d, l);
      SetLineOfLine(b, d, l);
      CellOnLine(b, d, l, c, pos);
      merged := false;
      if pos > 0 {
        CellOnLine(b, d, l, c, pos - 1);
      }
      if pos > 0 && grid[Row(d, l, pos - 1), Col(d, l, pos - 1)] == grid[Row(d, l, pos), Col(d, l, pos)] {
        var v := 2 * grid[Row(d, l, pos - 1), Col(d, l, pos - 1)];
        WritePair(d, l, pos, v, b, c);
        score := score + v;
        merged := true;
        var merge := Merge(Row(d, l, p), Col(d, l, p), Row(d, l, pos - 1), Col(d, l, pos - 1), 0.0, MoveDuration);
        assert Animations(d, l, [Combine(p, pos - 1)]) == [merge];
        animations := animations + [merge];
      }
    }

    /** One iteration of the inner `for` of a move toward `d`: an empty
        cell at position `p` of line `l` is skipped, a tile slides and then
        may merge; `changed` is true when it pushed an animation. */
    method MoveTileAt(d: Direction, l: nat, p: nat) returns (changed: bool)
      requires Fits() && l < Size && 0 < p < Size
      modifies this`score, this`animations, grid
      ensures var t := ProcessTile(Line(old(Board()), d, l), p);
        && Board() == SetLine(old(Board()), d, l, t.cells)
        && score == old(score) + t.gain
        && animations == old(animations) + Animations(d, l, t.events)
        && (changed <==> t.events != [])
    {
      ghost var b := Board();
      ghost var c := Line(b, d, l);
      SetLineOfLine(b, d, l);
      CellOnLine(b, d, l, c, p);
      if grid[Row(d, l, p), Col(d, l, p)] == 0 {
        return false;
      }
      var pos := SlideTile(d, l, p);
      ghost var s := Slide(c, p, p, []);
      LineOfSetLine(b, d, l, s.cells, l);
      var merged := MergeTile(d, l, p, pos);
      ghost var m := MergeAt(s.cells, s.at, p);
      SetLineTwice(b, d, l, s.cells, m.cells);
      AnimationsConcat(d, l, s.events, m.events);
      ConcatAssoc(old(animations), Animations(d, l, s.events), Animations(d, l, m.events));
      changed := pos < p || merged;
    }

    /** One pass of the inner `for` over line `l`: position `p`, after
        positions 1..p-1 of the line `c` were processed from a score
        `score0` and an animation list `anims0`. */
    method MoveNextTile(ghost b: seq<int>, d: Direction, l: nat, ghost c: seq<int>, p: nat,
                        ghost score0: int, ghost anims0: seq<Animation>, movedBefore: bool)
      returns (moved: bool)
      requires Fits() && IsBoard(b) && l < Size && c == Line(b, d, l) && 0 < p < Size
      requires Board() == SetLine(b, d, l, ProcessPrefix(c, p).cells)
      requires score == score0 + ProcessPrefix(c, p).gain
      requires animations == anims0 + Animations(d, l, ProcessPrefix(c, p).events)
      requires movedBefore <==> ProcessPrefix(c, p).events != []
      modifies this`score, this`animations, grid
      ensures Board() == SetLine(b, d, l, ProcessPrefix(c, p + 1).cells)
      ensures score == score0 + ProcessPrefix(c, p + 1).gain
      ensures animations == anims0 + Animations(d, l, ProcessPrefix(c, p + 1).events)
      ensures moved <==> ProcessPrefix(c, p + 1).events != []
    {
      ghost var pre := ProcessPrefix(c, p);
      LineOfSetLine(b, d, l, pre.cells, l);
      var changed := MoveTileAt(d, l, p);
      ghost var t := ProcessTile(pre.cells, p);
      SetLineTwice(b, d, l, pre.cells, t.cells);
      AnimationsConcat(d, l, pre.events, t.events);
      ConcatAssoc(anims0, Animations(d, l, pre.events), Animations(d, l, t.events));
      moved := movedBefore || changed;
    }

    /** The inner `for` of a move toward `d` over line `l`: positions 1..3,
        counted from the edge the tiles move toward. */
    method MoveLine(d: Direction, l: nat) returns (moved: bool)
      requires Fits() && l < Size
      modifies this`score, this`animations, grid
      ensures var t := ProcessLine(Line(old(Board()), d, l));
        && Board() == SetLine(old(Board()), d, l, t.cells)
        && score == old(score) + t.gain
        && animations == old(animations) + Animations(d, l, t.events)
        && (moved <==> t.events != [])
    {
      ghost var b := Board();
      ghost var c := Line(b, d, l);
      SetLineOfLine(b, d, l);
      moved := false;
      var p: nat := 1;
      while p < Size
        invariant 1 <= p <= Size
        invariant Board() == SetLine(b, d, l, ProcessPrefix(c, p).cells)
        invariant score == old(score) + ProcessPrefix(c, p).gain
        invariant animations == old(animations) + Animations(d, l, ProcessPrefix(c, p).events)
        invariant moved <==> ProcessPrefix(c, p).events != []
      {
        moved := MoveNextTile(b, d, l, c, p, old(score), old(animations), moved);
        p := p + 1;
      }
    }

    /** One pass of the outer `for` of a move toward `d`: line `l` of the
        original board `b`, after lines 0..l-1 were processed from a score
        `score0` and an animation list `anims0`. */
    method MoveNextLine(ghost b: seq<int>, d: Direction, l: nat, ghost score0: int, ghost anims0: seq<Animation>, movedBefore: bool)
      returns (moved: bool)
      requires Fits() && IsBoard(b) && l < Size
      requires Board() == Moved(b, d, l, ProcessLine)
      requires score == score0 + SlideGain(b, d, l, ProcessLine)
      requires animations == anims0 + SlideAnims(b, d, l, ProcessLine)
      requires movedBefore <==> SlideAnims(b, d, l, ProcessLine) != []
      modifies this`score, this`animations, grid
      ensures Board() == Moved(b, d, l + 1, ProcessLine)
      ensures score == score0 + SlideGain(b, d, l + 1, ProcessLine)
      ensures animations == anims0 + SlideAnims(b, d, l + 1, ProcessLine)
      ensures moved <==> SlideAnims(b, d, l + 1, ProcessLine) != []
    {
      ghost var before := Board();
      ghost var t := ProcessLine(Line(before, d, l));
      var lineMoved := MoveLine(d, l);
      SlideStep(b, d, l, before, t, Board());
      ConcatAssoc(anims0, SlideAnims(b, d, l, ProcessLine), Animations(d, l, t.events));
      moved := movedBefore || lineMoved;
    }

    /** `moveUp`, `moveDown`, `moveLeft` and `moveRight`: the four routines
        are one algorithm over the lines of direction `d` (columns for up
        and down, rows for left and right), read from the edge the tiles
        move toward. */
    method MoveInDirection(d: Direction) returns (moved: bool)
      requires Fits()
      modifies this`score, this`animations, grid
      ensures Board() == Moved(old(Board()), d, Size, ProcessLine)
      ensures score == old(score) + SlideGain(old(Board()), d, Size, ProcessLine)
      ensures animations == old(animations) + SlideAnims(old(Board()), d, Size, ProcessLine)
      ensures moved <==> SlideAnims(old(Board()), d, Size, ProcessLine) != []
    {
      ghost var b := Board();
      SlideStart(b, d);
      moved := false;
      var l: nat := 0;
      while l < Size
        invariant l <= Size
        invariant Board() == Moved(b, d, l, ProcessLine)
        invariant score == old(score) + SlideGain(b, d, l, ProcessLine)
        invariant animations == old(animations) + SlideAnims(b, d, l, ProcessLine)
        invariant moved <==> SlideAnims(b, d, l, ProcessLine) != []
      {
        moved := MoveNextLine(b, d, l, old(score), old(animations), moved);
        l := l + 1;
      }
    }

    /** `canMove`: first any empty cell, then any cell equal to its right
        or lower neighbour. */
    method CanMove() returns (can: bool)
      requires Fits()
      ensures can == CanMoveSpec(Board())
    {
      var i: nat := 0;
      while i < Size
        invariant i <= Size
        invariant forall a, b :: 0 <= a < i && 0 <= b < Size ==> grid[a, b] != 0
      {
        var j: nat := 0;
        while j < Size
          invariant j <= Size
          invariant forall a, b :: 0 <= a < i && 0 <= b < Size ==> grid[a, b] != 0
          invariant forall b :: 0 <= b < j ==> grid[i, b] != 0
        {
          if grid[i, j] == 0 {
            assert Board()[4 * i + j] == 0;
            return true;
          }
          j := j + 1;
        }
        i := i + 1;
      }
      i := 0;
      while i < Size
        invariant i <= Size
        invariant forall a, b :: 0 <= a < i && 0 <= b < Size ==> !PairAt(a, b)
      {
        var j: nat := 0;
        while j < Size
          invariant j <= Size
          invariant forall a, b :: 0 <= a < i && 0 <= b < Size ==> !PairAt(a, b)
          invariant forall b :: 0 <= b < j ==> !PairAt(i, b)
        {
          var value := grid[i, j];
          if j < Size - 1 && grid[i, j + 1] == value {
            PairOnBoard(i, j);
            return true;
          }
          if i < Size - 1 && grid[i + 1, j] == value {
            PairOnBoard(i, j);
            return true;
          }
          j := j + 1;
        }
        i := i + 1;
      }
      assert !HasEmpty(Board()) by {
        forall k | 0 <= k < 16
          ensures Board()[k] != 0
        {
          assert grid[k / 4, k % 4] != 0;
        }
      }
      assert !HasPair(Board()) by {
        if HasPair(Board()) {
          var a, b :| 0 <= a < Size && 0 <= b < Size &&
            ((b < Size - 1 && At(Board(), a, b) == At(Board(), a, b + 1)) ||
             (a < Size - 1 && At(Board(), a, b) == At(Board(), a + 1, b)));
          PairOnBoard(a, b);
        }
      }
      can := false;
    }

    /** Cell (i, j) of the grid equals its right or its lower neighbour. */
    ghost predicate PairAt(i: nat, j: nat)
      requires Fits() && i < Size && j < Size
      reads grid
    {
      (j < Size - 1 && grid[i, j] == grid[i, j + 1]) || (i < Size - 1 && grid[i, j] == grid[i + 1, j])
    }

    lemma PairOnBoard(i: nat, j: nat)
      requires Fits() && i < Size && j < Size
      ensures PairAt(i, j) <==>
        (j < Size - 1 && At(Board(), i, j) == At(Board(), i, j + 1)) ||
        (i < Size - 1 && At(Board(), i, j) == At(Board(), i + 1, j))
    {
      assert At(Board(), i, j) == grid[i, j];
      if j < Size - 1 {
        assert At(Board(), i, j + 1) == grid[i, j + 1];
      }
      if i < Size - 1 {
        assert At(Board(), i + 1, j) == grid[i + 1, j];
      }
    }

    /** `gameOver`, without the host callback: only the state changes. */
    method GameOver()
      requires Fits()
      modifies this`state
      ensures Snapshot() == old(Snapshot()).(state := GameState.GameOver)
    {
      state := GameState.GameOver;
    }

    /** The end of `moveTiles` after a move that changed the grid: a new
        random tile, then `canMove` and, when it fails, `gameOver`. */
    method SpawnTile(cellRoll: real, valueRoll: real)
      requires Fits() && 0.0 <= cellRoll < 1.0
      modifies this`animations, this`state, grid
      ensures Snapshot() == Spawn(old(Snapshot()), cellRoll, valueRoll)
    {
      AddRandomTile(cellRoll, valueRoll);
      var can := CanMove();
      if !can {
        GameOver();
      }
    }

    /** `moveTiles(direction)`: nothing while animating; otherwise the move,
        and when it moved a tile, a new tile and the game-over check. */
    method MoveTiles(d: Direction, cellRoll: real, valueRoll: real) returns (moved: bool)
      requires Fits() && 0.0 <= cellRoll < 1.0
      modifies this`score, this`animations, this`state, grid
      ensures (Snapshot(), moved) == AfterMove(old(Snapshot()), d, cellRoll, valueRoll)
    {
      ghost var p := Snapshot();
      if animating {
        return false;
      }
      moved := MoveInDirection(d);
      ghost var r := MoveBoard(p.board, d);
      assert Snapshot() == p.(board := r.board, score := p.score + r.gain, animations := p.animations + r.anims);
      if moved {
        SpawnTile(cellRoll, valueRoll);
      }
    }

    /** The nested loops of `resetGame` that write 0 into every cell. */
    method ClearGrid()
      requires Fits()
      modifies grid
      ensures Board() == EmptyBoard
    {
      var i: nat := 0;
      while i < Size
        invariant i <= Size
        invariant forall a, b :: 0 <= a < i && 0 <= b < Size ==> grid[a, b] == 0
      {
        var j: nat := 0;
        while j < Size
          invariant j <= Size
          invariant forall a, b :: 0 <= a < i && 0 <= b < Size ==> grid[a, b] == 0
          invariant forall b :: 0 <= b < j ==> grid[i, b] == 0
        {
          grid[i, j] := 0;
          j := j + 1;
        }
        i := i + 1;
      }
      forall k | 0 <= k < 16
        ensures Board()[k] == 0
      {
        assert grid[k / 4, k % 4] == 0;
      }
    }

    /** `resetGame`: every cell cleared, score and animations reset, then
        two random tiles. */
    method ResetGame(cellRoll1: real, valueRoll1: real, cellRoll2: real, valueRoll2: real)
      requires Fits() && 0.0 <= cellRoll1 < 1.0 && 0.0 <= cellRoll2 < 1.0
      modifies this`score, this`state, this`animating, this`animations, grid
      ensures Valid()
      ensures Snapshot() == Reset(old(Snapshot()), cellRoll1, valueRoll1, cellRoll2, valueRoll2)
    {
      ghost var p := Snapshot();
      ClearGrid();
      score := 0;
      state := Playing;
      animating := false;
      animations := [];
      assert Snapshot() == Cleared(p);
      AddRandomTile(cellRoll1, valueRoll1);
      AddRandomTile(cellRoll2, valueRoll2);
      ResetSpec(p, cellRoll1, valueRoll1, cellRoll2, valueRoll2);
    }

    /** `update(deltaTime)`: `animating` records whether animations were
        pending, the animation loop runs, and the best score catches up
        with the score. */
    method Update(dt: real)
      requires Fits()
      modifies this`animating, this`animations, this`highScore
      ensures Snapshot() == TileRules.Update(old(Snapshot()), dt)
    {
      animating := |animations| > 0;
      TickAll(dt);
      if score > highScore {
        highScore := score;
      }
    }

    /** The backward loop of `update`: it advances each animation and
        splices out the finished ones. */
    method TickAll(dt: real)
      modifies this`animations
      ensures animations == TickAnimations(old(animations), dt)
    {
      ghost var pending := animations;
      var i := |animations|;
      while i > 0
        invariant 0 <= i <= |pending|
        invariant animations == pending[..i] + TickAnimations(pending[i..], dt)
      {
        i := i - 1;
        TickOne(pending, i, dt, animations);
        var animation := Advance(animations[i], dt);
        if Finished(animation) {
          animations := animations[..i] + animations[i + 1..];
        } else {
          animations := animations[i := animation];
        }
      }
      assert pending[0..] == pending;
    }

    /** One pass of the backward loop: the animation at `k` is still the
        original one, and splicing it out or replacing it by its advanced
        copy extends the processed suffix by one. */
    lemma TickOne(pending: seq<Animation>, k: nat, dt: real, current: seq<Animation>)
      requires k < |pending| && current == pending[..k + 1] + TickAnimations(pending[k + 1..], dt)
      ensures k < |current| && current[k] == pending[k]
      ensures Finished(Advance(pending[k], dt)) ==>
        current[..k] + current[k + 1..] == pending[..k] + TickAnimations(pending[k..], dt)
      ensures !Finished(Advance(pending[k], dt)) ==>
        current[k := Advance(pending[k], dt)] == pending[..k] + TickAnimations(pending[k..], dt)
    {
      var rest := TickAnimations(pending[k + 1..], dt);
      assert pending[k..] == [pending[k]] + pending[k + 1..];
      assert pending[..k + 1] == pending[..k] + [pending[k]];
      assert current == pending[..k] + [pending[k]] + rest;
      assert current[..k] == pending[..k] && current[k + 1..] == rest;
    }

    /** `animate(timestamp)`: the time since the previous frame drives
        `update` while playing; drawing is not modelled. */
    method Animate(timestamp: real)
      requires Valid()
      modifies this
      ensures Valid() && lastTime == timestamp && touchStart == old(touchStart)
      ensures Snapshot() == Frame(old(Snapshot()), timestamp - old(lastTime))
    {
      var deltaTime := timestamp - lastTime;
      lastTime := timestamp;
      if state == Playing {
        Update(deltaTime);
      }
    }

    /** `handleTouchStart` at canvas point (x, y): the back button asks to
        exit, any touch on the start or game-over screen starts a new game,
        and otherwise the point is recorded as the start of a swipe. */
    method HandleTouchStart(x: real, y: real, cellRoll1: real, valueRoll1: real, cellRoll2: real, valueRoll2: real)
      returns (exit: bool)
      requires Valid() && 0.0 <= cellRoll1 < 1.0 && 0.0 <= cellRoll2 < 1.0
      modifies this, grid
      ensures Valid() && lastTime == old(lastTime)
      ensures exit <==> PointInRect(x, y, BackButton)
      ensures exit ==> Snapshot() == old(Snapshot()) && touchStart == old(touchStart)
      ensures !exit && old(state) in {Start, GameState.GameOver} ==>
                Snapshot() == Reset(old(Snapshot()), cellRoll1, valueRoll1, cellRoll2, valueRoll2)
                && touchStart == old(touchStart)
      ensures !exit && old(state) !in {Start, GameState.GameOver} ==>
                Snapshot() == old(Snapshot()) && touchStart == Some((x, y))
    {
      if PointInRect(x, y, BackButton) {
        return true;
      }
      if state == Start {
        ResetGame(cellRoll1, valueRoll1, cellRoll2, valueRoll2);
        return false;
      }
      if state == GameState.GameOver {
        ResetGame(cellRoll1, valueRoll1, cellRoll2, valueRoll2);
        return false;
      }
      touchStart := Some((x, y));
      return false;
    }

    /** `handleTouchEnd` at canvas point (x, y): while playing, with a
        recorded start whose coordinates are both nonzero (a zero counts as
        unset in the original's truthiness test), a long enough swipe moves
        the tiles; the recorded start is then cleared. */
    method HandleTouchEnd(x: real, y: real, cellRoll: real, valueRoll: real)
      requires Valid() && 0.0 <= cellRoll < 1.0
      modifies this, grid
      ensures Valid() && lastTime == old(lastTime)
      ensures var armed := old(state) == Playing && old(touchStart).Some?
                           && old(touchStart).value.0 != 0.0 && old(touchStart).value.1 != 0.0;
        && (!armed ==> Snapshot() == old(Snapshot()) && touchStart == old(touchStart))
        && (armed ==> touchStart == None)
        && (armed && Swipe(x - old(touchStart).value.0, y - old(touchStart).value.1, TileSwipeDistance).None? ==>
              Snapshot() == old(Snapshot()))
        && (armed && Swipe(x - old(touchStart).value.0, y - old(touchStart).value.1, TileSwipeDistance).Some? ==>
              Snapshot() == AfterMove(old(Snapshot()),
                Swipe(x - old(touchStart).value.0, y - old(touchStart).value.1, TileSwipeDistance).value,
                cellRoll, valueRoll).0)
    {
      if state != Playing || touchStart.None? || touchStart.value.0 == 0.0 || touchStart.value.1 == 0.0 {
        return;
      }
      var dx := x - touchStart.value.0;
      var dy := y - touchStart.value.1;
      var swipe := Swipe(dx, dy, TileSwipeDistance);
      if swipe.Some? {
        AfterMoveSpec(Snapshot(), swipe.value, cellRoll, valueRoll);
        var _ := MoveTiles(swipe.value, cellRoll, valueRoll);
      }
      touchStart := None;
    }
  }
}
