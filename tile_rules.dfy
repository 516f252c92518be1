/** The rules of the 2048 game (games/game2/main.js) as functions on values:
    how one line of four cells is pushed toward its edge, how the four swipe
    directions map lines onto the 4 x 4 board, and what a move preserves. */
module TileRules {
  import opened Common

  /** Cells per side of the board (`gridSize`). */
  const Size: nat := 4
  /** Minimal drag length, in pixels, for a swipe to move the tiles. */
  const TileSwipeDistance: real := 30.0
  /** Milliseconds of a move or merge animation, and of an appearing tile. */
  const MoveDuration: real := 100.0
  const AppearDuration: real := 200.0
  /** A new tile is a 2 when the draw is below 0.9, a 4 otherwise. */
  const TwoChance: real := 0.9

  /** An entry of `animations`; x is the row index and y the column index,
      as in the `{x: i, y: j}` cells of the original. */
  datatype Animation =
    | Appear(x: int, y: int, progress: real, duration: real)
    | Move(fromX: int, fromY: int, toX: int, toY: int, progress: real, duration: real)
    | Merge(fromX: int, fromY: int, toX: int, toY: int, progress: real, duration: real)

  // ---------------------------------------------------------------------
  // One line, read from the edge the tiles move toward
  // ---------------------------------------------------------------------

  /** What happens to the tile first found at position `from`: one step
      toward the edge, ending at `to`, or a merge into position `to`. */
  datatype Event = Shift(from: nat, to: nat) | Combine(from: nat, to: nat)

  /** The state after the `while` loop that slides one tile. */
  datatype Slid = Slid(cells: seq<int>, at: nat, events: seq<Event>)

  /** The outcome of processing tiles: cells, points scored, events. */
  datatype Pass = Pass(cells: seq<int>, gain: int, events: seq<Event>)

  /** The `while` loop: the tile at `pos` steps toward position 0 while the
      cell before it is empty; every step is one event, appended to the
      events `done` so far. */
  function Slide(c: seq<int>, pos: nat, from: nat, done: seq<Event>): (r: Slid)
    requires pos < |c| && from < |c|
    ensures |r.cells| == |c| && r.at <= pos
    ensures |r.events| == |done| + pos - r.at && r.cells[r.at] == c[pos]
    ensures r.at == pos ==> r.cells == c && r.events == done
    decreases pos
  {
    if pos > 0 && c[pos - 1] == 0 then
      Slide(c[pos - 1 := c[pos]][pos := 0], pos - 1, from, done + [Shift(from, pos - 1)])
    else
      Slid(c, pos, done)
  }

  /** The merge test after the slide: equal neighbour toward the edge
      doubles, the moving cell empties, and the doubled value is scored. */
  function MergeAt(c: seq<int>, pos: nat, from: nat): (r: Pass)
    requires pos < |c| && from < |c|
    ensures |r.cells| == |c|
  {
    if pos > 0 && c[pos - 1] == c[pos] then
      Pass(c[pos - 1 := 2 * c[pos - 1]][pos := 0], 2 * c[pos - 1], [Combine(from, pos - 1)])
    else
      Pass(c, 0, [])
  }

  /** One iteration of the inner `for`: an empty cell is skipped, a tile
      slides and then may merge. */
  function ProcessTile(c: seq<int>, p: nat): (r: Pass)
    requires p < |c|
    ensures |r.cells| == |c|
  {
    if c[p] == 0 then Pass(c, 0, [])
    else
      var s := Slide(c, p, p, []);
      var m := MergeAt(s.cells, s.at, p);
      Pass(m.cells, m.gain, s.events + m.events)
  }

  /** The inner `for` up to (not including) position `m`; position 0 is
      never moved. Tiles are visited from the edge outward, so a tile that
      was just merged can merge again with the next one. */
  function ProcessPrefix(c: seq<int>, m: nat): (r: Pass)
    requires m <= |c|
    ensures |r.cells| == |c|
  {
    if m <= 1 then Pass(c, 0, [])
    else
      var r := ProcessPrefix(c, m - 1);
      var t := ProcessTile(r.cells, m - 1);
      Pass(t.cells, r.gain + t.gain, r.events + t.events)
  }

  function ProcessLine(c: seq<int>): (r: Pass)
    ensures |r.cells| == |c|
  {
    ProcessPrefix(c, |c|)
  }

  /** Merging cascades: the 4 formed by the first merge meets the next 4
      in the same sweep, so a swipe toward the edge turns 2 2 4 into 8. */
  lemma CascadeLine()
    ensures ProcessLine([2, 2, 4, 0]) == Pass([8, 0, 0, 0], 12, [Combine(1, 0), Shift(2, 1), Combine(2, 0)])
  {
    var c := [2, 2, 4, 0];
    assert ProcessPrefix(c, 1) == Pass(c, 0, []);
    assert Slide(c, 1, 1, []) == Slid(c, 1, []);
    assert ProcessPrefix(c, 2) == Pass([4, 0, 4, 0], 4, [Combine(1, 0)]);
    var s := Slide([4, 0, 4, 0], 2, 2, []);
    assert s == Slide([4, 4, 0, 0], 1, 2, [Shift(2, 1)]);
    assert s == Slid([4, 4, 0, 0], 1, [Shift(2, 1)]);
    assert ProcessPrefix(c, 3) == Pass([8, 0, 0, 0], 12, [Combine(1, 0), Shift(2, 1), Combine(2, 0)]);
  }

  /** A tile slides over every empty cell before it merges. */
  lemma GapLine()
    ensures ProcessLine([2, 0, 0, 2]) == Pass([4, 0, 0, 0], 4, [Shift(3, 2), Shift(3, 1), Combine(3, 0)])
  {
    var s := Slide([2, 0, 0, 2], 3, 3, []);
    assert s == Slide([2, 0, 2, 0], 2, 3, [Shift(3, 2)]);
    assert s == Slide([2, 2, 0, 0], 1, 3, [Shift(3, 2), Shift(3, 1)]);
    assert s == Slid([2, 2, 0, 0], 1, [Shift(3, 2), Shift(3, 1)]);
    assert MergeAt(s.cells, s.at, 3) == Pass([4, 0, 0, 0], 4, [Combine(3, 0)]);
  }

  // ---------------------------------------------------------------------
  // Tiles, sums and potentials
  // ---------------------------------------------------------------------

  predicate IsPowerOfTwo(v: int)
    decreases if v < 1 then 0 else v
  {
    v == 1 || (v > 1 && v % 2 == 0 && IsPowerOfTwo(v / 2))
  }

  /** A cell value the game can hold: empty (0) or a power of two from 2 up. */
  predicate IsTile(v: int)
  {
    v == 0 || (v >= 2 && IsPowerOfTwo(v))
  }

  predicate AllTiles(s: seq<int>)
  {
    forall i :: 0 <= i < |s| ==> IsTile(s[i])
  }

  /** The points needed to build a tile from 2s: merging two tiles of
      value v scores 2v, so Pot(2v) == 2 * Pot(v) + 2v. */
  function Pot(v: int): int
    decreases if v < 2 then 0 else v
  {
    if v <= 2 then 0 else 2 * Pot(v / 2) + v
  }

  /** Σ f(s[k]) over a line or a board. */
  function Total(s: seq<int>, f: int -> int): int
  {
    TotalTo(s, |s|, f)
  }

  /** Σ f(s[k]) for k < n. */
  function TotalTo(s: seq<int>, n: nat, f: int -> int): int
    requires n <= |s|
  {
    if n == 0 then 0 else TotalTo(s, n - 1, f) + f(s[n - 1])
  }

  function Id(v: int): int { v }

  /** Σ k * s[k] (starting from index `base`): every slide step or merge
      lowers it by the value of the moving tile. */
  function Weight(s: seq<int>, base: int): int
  {
    if s == [] then 0 else base * s[0] + Weight(s[1..], base + 1)
  }

  lemma {:induction false} TotalToUpdate(s: seq<int>, f: int -> int, i: nat, v: int, n: nat)
    requires i < |s| && n <= |s|
    ensures TotalTo(s[i := v], n, f) == TotalTo(s, n, f) + if i < n then f(v) - f(s[i]) else 0
  {
    if n > 0 {
      TotalToUpdate(s, f, i, v, n - 1);
    }
  }

  lemma TotalUpdate(s: seq<int>, f: int -> int, i: nat, v: int)
    requires i < |s|
    ensures Total(s[i := v], f) == Total(s, f) - f(s[i]) + f(v)
  {
    TotalToUpdate(s, f, i, v, |s|);
  }

  lemma {:induction false} WeightUpdate(s: seq<int>, base: int, i: nat, v: int)
    requires i < |s|
    ensures Weight(s[i := v], base) == Weight(s, base) + (base + i) * (v - s[i])
  {
    if i == 0 {
      assert s[i := v][1..] == s[1..];
    } else {
      assert s[i := v][1..] == s[1..][i - 1 := v];
      WeightUpdate(s[1..], base + 1, i - 1, v);
    }
  }

  /** A slide only moves a tile into empty cells: any total that does not
      count empty cells is unchanged. */
  lemma {:induction false} SlideTotal(c: seq<int>, pos: nat, from: nat, done: seq<Event>, f: int -> int)
    requires pos < |c| && from < |c| && f(0) == 0
    ensures Total(Slide(c, pos, from, done).cells, f) == Total(c, f)
    decreases pos
  {
    if pos > 0 && c[pos - 1] == 0 {
      var c1 := c[pos - 1 := c[pos]];
      TotalUpdate(c, f, pos - 1, c[pos]);
      TotalUpdate(c1, f, pos, 0);
      SlideTotal(c1[pos := 0], pos - 1, from, done + [Shift(from, pos - 1)], f);
    }
  }

  /** Each slide step lowers the weight by the moving tile, at least 1. */
  lemma {:induction false} SlideWeight(c: seq<int>, pos: nat, from: nat, done: seq<Event>)
    requires pos < |c| && from < |c| && c[pos] > 0
    ensures Weight(Slide(c, pos, from, done).cells, 0) + |Slide(c, pos, from, done).events| <= Weight(c, 0) + |done|
    decreases pos
  {
    if pos > 0 && c[pos - 1] == 0 {
      var x := c[pos];
      var c1 := c[pos - 1 := x];
      var c2 := c1[pos := 0];
      WeightUpdate(c, 0, pos - 1, x);
      assert Weight(c1, 0) == Weight(c, 0) + (pos - 1) * x;
      WeightUpdate(c1, 0, pos, 0);
      assert Weight(c2, 0) == Weight(c1, 0) - pos * x;
      assert (pos - 1) * x - pos * x == -x;
      SlideWeight(c2, pos - 1, from, done + [Shift(from, pos - 1)]);
    }
  }

  lemma {:induction false} SlideTiles(c: seq<int>, pos: nat, from: nat, done: seq<Event>)
    requires pos < |c| && from < |c| && AllTiles(c)
    ensures AllTiles(Slide(c, pos, from, done).cells)
    decreases pos
  {
    if pos > 0 && c[pos - 1] == 0 {
      SlideTiles(c[pos - 1 := c[pos]][pos := 0], pos - 1, from, done + [Shift(from, pos - 1)]);
    }
  }

  lemma DoubleTile(v: int)
    requires IsTile(v) && v != 0
    ensures IsTile(2 * v) && 2 * v != 0
  {
    assert (2 * v) / 2 == v;
  }

  lemma PotDouble(v: int)
    requires v >= 2
    ensures Pot(2 * v) == 2 * Pot(v) + 2 * v
  {
    assert (2 * v) / 2 == v;
  }

  /** The merge step keeps the tile total and raises the potential by the
      points scored. */
  lemma MergeTotals(c: seq<int>, pos: nat, from: nat)
    requires pos < |c| && from < |c| && AllTiles(c) && c[pos] != 0
    ensures var r := MergeAt(c, pos, from);
      && Total(r.cells, Id) == Total(c, Id)
      && Total(r.cells, Pot) == Total(c, Pot) + r.gain
  {
    if pos > 0 && c[pos - 1] == c[pos] {
      var x := c[pos];
      var c1 := c[pos - 1 := 2 * x];
      TotalUpdate(c, Id, pos - 1, 2 * x);
      TotalUpdate(c1, Id, pos, 0);
      TotalUpdate(c, Pot, pos - 1, 2 * x);
      TotalUpdate(c1, Pot, pos, 0);
      PotDouble(x);
    }
  }

  /** The merge step keeps tiles tiles and lowers the weight when it merges. */
  lemma MergeShape(c: seq<int>, pos: nat, from: nat)
    requires pos < |c| && from < |c| && AllTiles(c) && c[pos] != 0
    ensures var r := MergeAt(c, pos, from);
      && AllTiles(r.cells)
      && Weight(r.cells, 0) + |r.events| <= Weight(c, 0)
      && (r.events == [] <==> r.cells == c)
  {
    if pos > 0 && c[pos - 1] == c[pos] {
      var x := c[pos];
      var c1 := c[pos - 1 := 2 * x];
      DoubleTile(x);
      WeightUpdate(c, 0, pos - 1, 2 * x);
      WeightUpdate(c1, 0, pos, 0);
      assert (pos - 1) * (2 * x - x) + pos * (0 - x) == -x;
      assert c1[pos := 0][pos] != c[pos];
    }
  }

  /** One tile's turn: the tile total is kept, the potential rises by
      exactly the points scored, tiles stay tiles, and every event lowers
      the weight. */
  lemma ProcessTileFacts(c: seq<int>, p: nat)
    requires p < |c| && AllTiles(c)
    ensures var r := ProcessTile(c, p);
      && Total(r.cells, Id) == Total(c, Id)
      && Total(r.cells, Pot) == Total(c, Pot) + r.gain
      && AllTiles(r.cells)
      && Weight(r.cells, 0) + |r.events| <= Weight(c, 0)
      && (r.events == [] <==> r.cells == c)
  {
    if c[p] != 0 {
      var s := Slide(c, p, p, []);
      SlideTotal(c, p, p, [], Id);
      SlideTotal(c, p, p, [], Pot);
      SlideTiles(c, p, p, []);
      SlideWeight(c, p, p, []);
      MergeTotals(s.cells, s.at, p);
      MergeShape(s.cells, s.at, p);
      var m := MergeAt(s.cells, s.at, p);
      if s.events + m.events != [] {
        assert Weight(m.cells, 0) < Weight(c, 0);
      }
    }
  }

  /** A whole line: tile total kept, potential raised by the points scored,
      tiles stay tiles; at least one event exactly when the line changed. */
  lemma {:induction false} ProcessPrefixFacts(c: seq<int>, m: nat)
    requires m <= |c| && AllTiles(c)
    ensures var r := ProcessPrefix(c, m);
      && Total(r.cells, Id) == Total(c, Id)
      && Total(r.cells, Pot) == Total(c, Pot) + r.gain
      && AllTiles(r.cells)
      && Weight(r.cells, 0) + |r.events| <= Weight(c, 0)
      && (r.events == [] <==> r.cells == c)
  {
    if m > 1 {
      ProcessPrefixFacts(c, m - 1);
      var r := ProcessPrefix(c, m - 1);
      ProcessTileFacts(r.cells, m - 1);
    }
  }

  /** The cells of a line that cannot move: no empty cell, no two equal
      neighbours. */
  predicate Stuck(c: seq<int>)
  {
    && (forall i :: 0 <= i < |c| ==> c[i] != 0)
    && (forall i :: 0 < i < |c| ==> c[i - 1] != c[i])
  }

  /** A stuck line is left as it is, scores nothing and animates nothing. */
  lemma {:induction false} StuckLine(c: seq<int>, m: nat)
    requires m <= |c| && Stuck(c)
    ensures ProcessPrefix(c, m) == Pass(c, 0, [])
  {
    if m > 1 {
      StuckLine(c, m - 1);
    }
  }

  // ---------------------------------------------------------------------
  // The board and the four directions
  // ---------------------------------------------------------------------

  /** The grid as a value: 16 cells, row by row; `grid[i][j]` is b[4*i + j]. */
  predicate IsBoard(b: seq<int>)
  {
    |b| == 16
  }

  /** Row and column of position `p` of line `l` when moving toward `d`:
      lines are rows for left and right and columns for up and down, and
      position 0 is the cell on the edge the tiles move toward. */
  function Row(d: Direction, l: nat, p: nat): (i: int)
    ensures l < Size && p < Size ==> 0 <= i < Size
  {
    match d
    case Left => l
    case Right => l
    case Up => p
    case Down => 3 - p
  }

  function Col(d: Direction, l: nat, p: nat): (j: int)
    ensures l < Size && p < Size ==> 0 <= j < Size
  {
    match d
    case Left => p
    case Right => 3 - p
    case Up => l
    case Down => l
  }

  /** The line and position of board cell `k` when moving toward `d`. */
  function LineOf(d: Direction, k: nat): (l: nat)
    requires k < 16
    ensures l < Size
  {
    match d
    case Left => k / 4
    case Right => k / 4
    case Up => k % 4
    case Down => k % 4
  }

  function PosOf(d: Direction, k: nat): (p: nat)
    requires k < 16
    ensures p < Size
  {
    match d
    case Left => k % 4
    case Right => 3 - k % 4
    case Up => k / 4
    case Down => 3 - k / 4
  }

  /** The board cell at position `p` of line `l`; `LineOf`/`PosOf` invert it. */
  function Index(d: Direction, l: nat, p: nat): (k: nat)
    requires l < Size && p < Size
    ensures k < 16
  {
    4 * Row(d, l, p) + Col(d, l, p)
  }

  lemma LineOfIndex(d: Direction, l: nat, p: nat)
    requires l < Size && p < Size
    ensures LineOf(d, Index(d, l, p)) == l && PosOf(d, Index(d, l, p)) == p
  {
    var k := Index(d, l, p);
    match d
    case Left => assert k == 4 * l + p;
    case Right => assert k == 4 * l + (3 - p);
    case Up => assert k == 4 * p + l;
    case Down => assert k == 4 * (3 - p) + l;
  }

  /** Every cell belongs to exactly one line of each direction. */
  lemma IndexOfLineOf(d: Direction, k: nat)
    requires k < 16
    ensures Index(d, LineOf(d, k), PosOf(d, k)) == k
  {
  }

  /** Line `l` read from its edge. */
  function Line(b: seq<int>, d: Direction, l: nat): (c: seq<int>)
    requires IsBoard(b) && l < Size
    ensures |c| == Size
  {
    seq(Size, p requires 0 <= p < Size => b[Index(d, l, p)])
  }

  /** The board with line `l` replaced by `c`: the original writes the
      line's cells one by one. */
  function SetLine(b: seq<int>, d: Direction, l: nat, c: seq<int>): (r: seq<int>)
    requires IsBoard(b) && l < Size && |c| == Size
    ensures IsBoard(r)
  {
    Writes(b, d, l, c, Size)
  }

  /** The first `n` positions of line `l` written with `c`. */
  function Writes(b: seq<int>, d: Direction, l: nat, c: seq<int>, n: nat): (r: seq<int>)
    requires IsBoard(b) && l < Size && |c| == Size && n <= Size
    ensures IsBoard(r)
  {
    if n == 0 then b else Writes(b, d, l, c, n - 1)[Index(d, l, n - 1) := c[n - 1]]
  }

  lemma {:induction false} WritesAt(b: seq<int>, d: Direction, l: nat, c: seq<int>, n: nat, k: nat)
    requires IsBoard(b) && l < Size && |c| == Size && n <= Size && k < 16
    ensures Writes(b, d, l, c, n)[k] == if LineOf(d, k) == l && PosOf(d, k) < n then c[PosOf(d, k)] else b[k]
  {
    if n > 0 {
      WritesAt(b, d, l, c, n - 1, k);
      IndexOfLineOf(d, k);
      LineOfIndex(d, l, n - 1);
    }
  }

  /** Cell `k` after replacing line `l`: from `c` when it lies on the line. */
  lemma SetLineAt(b: seq<int>, d: Direction, l: nat, c: seq<int>, k: nat)
    requires IsBoard(b) && l < Size && |c| == Size && k < 16
    ensures SetLine(b, d, l, c)[k] == if LineOf(d, k) == l then c[PosOf(d, k)] else b[k]
  {
    WritesAt(b, d, l, c, Size, k);
  }

  lemma LineOfSetLine(b: seq<int>, d: Direction, l: nat, c: seq<int>, m: nat)
    requires IsBoard(b) && l < Size && |c| == Size && m < Size
    ensures Line(SetLine(b, d, l, c), d, m) == if m == l then c else Line(b, d, m)
  {
    forall p | 0 <= p < Size
      ensures Line(SetLine(b, d, l, c), d, m)[p] == (if m == l then c else Line(b, d, m))[p]
    {
      SetLineAt(b, d, l, c, Index(d, m, p));
      LineOfIndex(d, m, p);
    }
  }

  lemma SetLineOfLine(b: seq<int>, d: Direction, l: nat)
    requires IsBoard(b) && l < Size
    ensures SetLine(b, d, l, Line(b, d, l)) == b
  {
    forall k | 0 <= k < 16
      ensures SetLine(b, d, l, Line(b, d, l))[k] == b[k]
    {
      SetLineAt(b, d, l, Line(b, d, l), k);
      IndexOfLineOf(d, k);
    }
  }

  /** Writing one position of a line is writing one cell of the board. */
  lemma SetLineUpdate(b: seq<int>, d: Direction, l: nat, c: seq<int>, p: nat, v: int)
    requires IsBoard(b) && l < Size && |c| == Size && p < Size
    ensures SetLine(b, d, l, c[p := v]) == SetLine(b, d, l, c)[Index(d, l, p) := v]
  {
    var lhs := SetLine(b, d, l, c[p := v]);
    var rhs := SetLine(b, d, l, c)[Index(d, l, p) := v];
    LineOfIndex(d, l, p);
    forall k | 0 <= k < 16
      ensures lhs[k] == rhs[k]
    {
      SetLineAt(b, d, l, c[p := v], k);
      SetLineAt(b, d, l, c, k);
      IndexOfLineOf(d, k);
      assert k == Index(d, l, p) <==> LineOf(d, k) == l && PosOf(d, k) == p;
    }
  }

  lemma SetLineTwice(b: seq<int>, d: Direction, l: nat, c: seq<int>, c': seq<int>)
    requires IsBoard(b) && l < Size && |c| == Size && |c'| == Size
    ensures SetLine(SetLine(b, d, l, c), d, l, c') == SetLine(b, d, l, c')
  {
    forall k | 0 <= k < 16
      ensures SetLine(SetLine(b, d, l, c), d, l, c')[k] == SetLine(b, d, l, c')[k]
    {
      SetLineAt(SetLine(b, d, l, c), d, l, c', k);
      SetLineAt(b, d, l, c, k);
      SetLineAt(b, d, l, c', k);
    }
  }

  /** Two boards with the same lines are the same board. */
  lemma SameLines(b: seq<int>, b': seq<int>, d: Direction)
    requires IsBoard(b) && IsBoard(b')
    requires forall l :: 0 <= l < Size ==> Line(b, d, l) == Line(b', d, l)
    ensures b == b'
  {
    forall k | 0 <= k < 16
      ensures b[k] == b'[k]
    {
      IndexOfLineOf(d, k);
      assert Line(b, d, LineOf(d, k))[PosOf(d, k)] == Line(b', d, LineOf(d, k))[PosOf(d, k)];
    }
  }

  /** Four more cells of a running total. */
  lemma TotalToFour(s: seq<int>, n: nat, f: int -> int)
    requires n + 4 <= |s|
    ensures TotalTo(s, n + 4, f) == TotalTo(s, n, f) + f(s[n]) + f(s[n + 1]) + f(s[n + 2]) + f(s[n + 3])
  {
    assert TotalTo(s, n + 2, f) == TotalTo(s, n, f) + f(s[n]) + f(s[n + 1]);
  }

  lemma TotalOfFour(s: seq<int>, f: int -> int)
    requires |s| == 4
    ensures Total(s, f) == f(s[0]) + f(s[1]) + f(s[2]) + f(s[3])
  {
    TotalToFour(s, 0, f);
  }

  /** Σ f over the board, cell by cell. */
  lemma TotalOfBoard(b: seq<int>, f: int -> int)
    requires IsBoard(b)
    ensures Total(b, f) ==
      f(b[0]) + f(b[1]) + f(b[2]) + f(b[3]) + f(b[4]) + f(b[5]) + f(b[6]) + f(b[7]) +
      f(b[8]) + f(b[9]) + f(b[10]) + f(b[11]) + f(b[12]) + f(b[13]) + f(b[14]) + f(b[15])
  {
    TotalToFour(b, 0, f);
    TotalToFour(b, 4, f);
    TotalToFour(b, 8, f);
    TotalToFour(b, 12, f);
  }

  /** Σ f over the board is the sum over the four lines of any direction. */
  lemma BoardTotal(b: seq<int>, d: Direction, f: int -> int)
    requires IsBoard(b)
    ensures Total(b, f) == Total(Line(b, d, 0), f) + Total(Line(b, d, 1), f) + Total(Line(b, d, 2), f) + Total(Line(b, d, 3), f)
  {
    TotalOfBoard(b, f);
    match d
    case Left => LinesLeft(b, f);
    case Right => LinesRight(b, f);
    case Up => LinesUp(b, f);
    case Down => LinesDown(b, f);
  }

  /** Σ f over each line of one direction, cell by cell. */
  lemma LinesLeft(b: seq<int>, f: int -> int)
    requires IsBoard(b)
    ensures Total(Line(b, Left, 0), f) == f(b[0]) + f(b[1]) + f(b[2]) + f(b[3])
    ensures Total(Line(b, Left, 1), f) == f(b[4]) + f(b[5]) + f(b[6]) + f(b[7])
    ensures Total(Line(b, Left, 2), f) == f(b[8]) + f(b[9]) + f(b[10]) + f(b[11])
    ensures Total(Line(b, Left, 3), f) == f(b[12]) + f(b[13]) + f(b[14]) + f(b[15])
  {
    TotalOfFour(Line(b, Left, 0), f);
    TotalOfFour(Line(b, Left, 1), f);
    TotalOfFour(Line(b, Left, 2), f);
    TotalOfFour(Line(b, Left, 3), f);
  }

  lemma LinesRight(b: seq<int>, f: int -> int)
    requires IsBoard(b)
    ensures Total(Line(b, Right, 0), f) == f(b[3]) + f(b[2]) + f(b[1]) + f(b[0])
    ensures Total(Line(b, Right, 1), f) == f(b[7]) + f(b[6]) + f(b[5]) + f(b[4])
    ensures Total(Line(b, Right, 2), f) == f(b[11]) + f(b[10]) + f(b[9]) + f(b[8])
    ensures Total(Line(b, Right, 3), f) == f(b[15]) + f(b[14]) + f(b[13]) + f(b[12])
  {
    TotalOfFour(Line(b, Right, 0), f);
    TotalOfFour(Line(b, Right, 1), f);
    TotalOfFour(Line(b, Right, 2), f);
    TotalOfFour(Line(b, Right, 3), f);
  }

  lemma LinesUp(b: seq<int>, f: int -> int)
    requires IsBoard(b)
    ensures Total(Line(b, Up, 0), f) == f(b[0]) + f(b[4]) + f(b[8]) + f(b[12])
    ensures Total(Line(b, Up, 1), f) == f(b[1]) + f(b[5]) + f(b[9]) + f(b[13])
    ensures Total(Line(b, Up, 2), f) == f(b[2]) + f(b[6]) + f(b[10]) + f(b[14])
    ensures Total(Line(b, Up, 3), f) == f(b[3]) + f(b[7]) + f(b[11]) + f(b[15])
  {
    TotalOfFour(Line(b, Up, 0), f);
    TotalOfFour(Line(b, Up, 1), f);
    TotalOfFour(Line(b, Up, 2), f);
    TotalOfFour(Line(b, Up, 3), f);
  }

  lemma LinesDown(b: seq<int>, f: int -> int)
    requires IsBoard(b)
    ensures Total(Line(b, Down, 0), f) == f(b[12]) + f(b[8]) + f(b[4]) + f(b[0])
    ensures Total(Line(b, Down, 1), f) == f(b[13]) + f(b[9]) + f(b[5]) + f(b[1])
    ensures Total(Line(b, Down, 2), f) == f(b[14]) + f(b[10]) + f(b[6]) + f(b[2])
    ensures Total(Line(b, Down, 3), f) == f(b[15]) + f(b[11]) + f(b[7]) + f(b[3])
  {
    TotalOfFour(Line(b, Down, 0), f);
    TotalOfFour(Line(b, Down, 1), f);
    TotalOfFour(Line(b, Down, 2), f);
    TotalOfFour(Line(b, Down, 3), f);
  }

  lemma LineTiles(b: seq<int>, d: Direction, l: nat)
    requires IsBoard(b) && l < Size
    ensures AllTiles(b) ==> AllTiles(Line(b, d, l))
  {
  }

  lemma SetLineTiles(b: seq<int>, d: Direction, l: nat, c: seq<int>)
    requires IsBoard(b) && l < Size && |c| == Size
    ensures AllTiles(b) && AllTiles(c) ==> AllTiles(SetLine(b, d, l, c))
  {
    forall k | 0 <= k < 16
      ensures SetLine(b, d, l, c)[k] == if LineOf(d, k) == l then c[PosOf(d, k)] else b[k]
    {
      SetLineAt(b, d, l, c, k);
    }
  }

  // ---------------------------------------------------------------------
  // A whole move
  // ---------------------------------------------------------------------

  /** The outcome of a move on the board: new board, points, animations. */
  datatype BoardPass = BoardPass(board: seq<int>, gain: int, anims: seq<Animation>)

  /** The animation the original pushes for an event of line `l`: from the
      tile's first cell to where it is now, lasting 100 ms. */
  function ToAnimation(d: Direction, l: nat, e: Event): Animation
  {
    match e
    case Shift(f, t) => Move(Row(d, l, f), Col(d, l, f), Row(d, l, t), Col(d, l, t), 0.0, MoveDuration)
    case Combine(f, t) => Merge(Row(d, l, f), Col(d, l, f), Row(d, l, t), Col(d, l, t), 0.0, MoveDuration)
  }

  function Animations(d: Direction, l: nat, es: seq<Event>): (r: seq<Animation>)
    ensures |r| == |es|
  {
    if es == [] then [] else [ToAnimation(d, l, es[0])] + Animations(d, l, es[1..])
  }

  lemma {:induction false} AnimationsConcat(d: Direction, l: nat, es: seq<Event>, fs: seq<Event>)
    ensures Animations(d, l, es + fs) == Animations(d, l, es) + Animations(d, l, fs)
  {
    if es == [] {
      assert es + fs == fs;
    } else {
      assert (es + fs)[1..] == es[1..] + fs;
      AnimationsConcat(d, l, es[1..], fs);
    }
  }

  /** A line rule keeps the number of cells. */
  ghost predicate KeepsLength(rule: seq<int> -> Pass)
  {
    forall c :: |rule(c).cells| == |c|
  }

  /** A line rule keeps every cell a tile. */
  ghost predicate KeepsTiles(rule: seq<int> -> Pass)
  {
    forall c :: AllTiles(c) ==> AllTiles(rule(c).cells)
  }

  /** On tiles, a line rule keeps the total of `f` over the cells. */
  ghost predicate KeepsTotal(rule: seq<int> -> Pass, f: int -> int)
  {
    forall c {:trigger rule(c)} :: AllTiles(c) ==> Total(rule(c).cells, f) == Total(c, f)
  }

  /** On tiles, a line rule raises the total of `f` by exactly the points
      it scores. */
  ghost predicate ScoresTotal(rule: seq<int> -> Pass, f: int -> int)
  {
    forall c {:trigger rule(c)} :: AllTiles(c) ==> Total(rule(c).cells, f) == Total(c, f) + rule(c).gain
  }

  /** On tiles, a line rule has events exactly when it changes the line. */
  ghost predicate QuietIffUnchanged(rule: seq<int> -> Pass)
  {
    forall c :: AllTiles(c) ==> (rule(c).events == [] <==> rule(c).cells == c)
  }

  /** A line rule leaves a stuck line alone. */
  ghost predicate KeepsStuck(rule: seq<int> -> Pass)
  {
    forall c :: Stuck(c) ==> rule(c) == Pass(c, 0, [])
  }

  /** The line rule of the original keeps the number of cells. */
  lemma ProcessLineLength()
    ensures KeepsLength(ProcessLine)
  {
  }

  /** The line rule of the original has all these properties. */
  lemma ProcessLineRule()
    ensures KeepsLength(ProcessLine) && KeepsTiles(ProcessLine) && KeepsTotal(ProcessLine, Id)
    ensures ScoresTotal(ProcessLine, Pot) && QuietIffUnchanged(ProcessLine) && KeepsStuck(ProcessLine)
  {
    forall c | AllTiles(c)
      ensures var r := ProcessLine(c);
        && Total(r.cells, Id) == Total(c, Id)
        && Total(r.cells, Pot) == Total(c, Pot) + r.gain
        && AllTiles(r.cells)
        && (r.events == [] <==> r.cells == c)
    {
      ProcessPrefixFacts(c, |c|);
    }
    forall c | Stuck(c)
      ensures ProcessLine(c) == Pass(c, 0, [])
    {
      StuckLine(c, |c|);
    }
  }

  /** The board after the first `n` lines of direction `d` are each
      processed by `rule`: every line is rewritten from its own cells only,
      as in the loops of `moveUp`, `moveDown`, `moveLeft` and `moveRight`. */
  function Moved(b: seq<int>, d: Direction, n: nat, rule: seq<int> -> Pass): (r: seq<int>)
    requires IsBoard(b) && n <= Size && KeepsLength(rule)
    ensures IsBoard(r)
  {
    seq(16, k requires 0 <= k < 16 =>
      if LineOf(d, k) < n then rule(Line(b, d, LineOf(d, k))).cells[PosOf(d, k)] else b[k])
  }

  /** The points scored by those `n` lines. */
  function SlideGain(b: seq<int>, d: Direction, n: nat, rule: seq<int> -> Pass): int
    requires IsBoard(b) && n <= Size
  {
    if n == 0 then 0 else SlideGain(b, d, n - 1, rule) + rule(Line(b, d, n - 1)).gain
  }

  /** The animations pushed by those `n` lines, line after line. */
  function SlideAnims(b: seq<int>, d: Direction, n: nat, rule: seq<int> -> Pass): seq<Animation>
    requires IsBoard(b) && n <= Size
  {
    if n == 0 then [] else SlideAnims(b, d, n - 1, rule) + Animations(d, n - 1, rule(Line(b, d, n - 1)).events)
  }

  /** Before the original's outer loop: no line processed, nothing scored,
      no animation. */
  lemma SlideStart(b: seq<int>, d: Direction)
    requires IsBoard(b)
    ensures Moved(b, d, 0, ProcessLine) == b
    ensures SlideGain(b, d, 0, ProcessLine) == 0 && SlideAnims(b, d, 0, ProcessLine) == []
  {
    ProcessLineLength();
    MovedNone(b, d, ProcessLine);
  }

  /** One more line of the original's outer loop: processing line `n` of
      the board moved so far, with pass `t`, moves `n + 1` lines. */
  lemma SlideStep(b: seq<int>, d: Direction, n: nat, before: seq<int>, t: Pass, after: seq<int>)
    requires IsBoard(b) && n < Size && IsBoard(before)
    requires before == Moved(b, d, n, ProcessLine)
    requires t == ProcessLine(Line(before, d, n))
    requires after == SetLine(before, d, n, t.cells)
    ensures t == ProcessLine(Line(b, d, n))
    ensures after == Moved(b, d, n + 1, ProcessLine)
    ensures SlideGain(b, d, n + 1, ProcessLine) == SlideGain(b, d, n, ProcessLine) + t.gain
    ensures SlideAnims(b, d, n + 1, ProcessLine) == SlideAnims(b, d, n, ProcessLine) + Animations(d, n, t.events)
    ensures SlideAnims(b, d, n + 1, ProcessLine) != [] <==> SlideAnims(b, d, n, ProcessLine) != [] || t.events != []
  {
    ProcessLineLength();
    MovedLine(b, d, n, n, ProcessLine);
    MovedStep(b, d, n, ProcessLine);
  }

  /** A whole move toward `d`. */
  function MoveBoard(b: seq<int>, d: Direction): (r: BoardPass)
    requires IsBoard(b)
    ensures IsBoard(r.board)
  {
    ProcessLineLength();
    BoardPass(Moved(b, d, Size, ProcessLine), SlideGain(b, d, Size, ProcessLine), SlideAnims(b, d, Size, ProcessLine))
  }

  /** Each line of the result is that line of the board processed on its own. */
  lemma MovedLine(b: seq<int>, d: Direction, n: nat, m: nat, rule: seq<int> -> Pass)
    requires IsBoard(b) && n <= Size && m < Size && KeepsLength(rule)
    ensures Line(Moved(b, d, n, rule), d, m) == if m < n then rule(Line(b, d, m)).cells else Line(b, d, m)
  {
    forall p | 0 <= p < Size
      ensures Line(Moved(b, d, n, rule), d, m)[p] == (if m < n then rule(Line(b, d, m)).cells else Line(b, d, m))[p]
    {
      LineOfIndex(d, m, p);
    }
  }

  /** Processing line `n` next is writing it over the board processed so
      far: the order of the original's loop gives the same board. */
  lemma MovedStep(b: seq<int>, d: Direction, n: nat, rule: seq<int> -> Pass)
    requires IsBoard(b) && n < Size && KeepsLength(rule)
    ensures Moved(b, d, n + 1, rule) == SetLine(Moved(b, d, n, rule), d, n, rule(Line(b, d, n)).cells)
  {
    var lhs := Moved(b, d, n + 1, rule);
    var rhs := SetLine(Moved(b, d, n, rule), d, n, rule(Line(b, d, n)).cells);
    forall k | 0 <= k < 16
      ensures lhs[k] == rhs[k]
    {
      SetLineAt(Moved(b, d, n, rule), d, n, rule(Line(b, d, n)).cells, k);
    }
  }

  lemma MovedNone(b: seq<int>, d: Direction, rule: seq<int> -> Pass)
    requires IsBoard(b) && KeepsLength(rule)
    ensures Moved(b, d, 0, rule) == b
  {
    forall k | 0 <= k < 16
      ensures Moved(b, d, 0, rule)[k] == b[k]
    {
      assert !(LineOf(d, k) < 0);
    }
  }

  /** A move by a rule that keeps tiles keeps tiles. */
  lemma MovedTiles(b: seq<int>, d: Direction, n: nat, rule: seq<int> -> Pass)
    requires IsBoard(b) && n <= Size && AllTiles(b) && KeepsLength(rule) && KeepsTiles(rule)
    ensures AllTiles(Moved(b, d, n, rule))
  {
    forall k | 0 <= k < 16 && LineOf(d, k) < n
      ensures IsTile(Moved(b, d, n, rule)[k])
    {
      LineTiles(b, d, LineOf(d, k));
    }
  }

  /** A move by a rule that keeps a total on every line keeps it on the board. */
  lemma MovedKeeps(b: seq<int>, d: Direction, rule: seq<int> -> Pass, f: int -> int)
    requires IsBoard(b) && AllTiles(b) && KeepsLength(rule) && KeepsTotal(rule, f)
    ensures Total(Moved(b, d, Size, rule), f) == Total(b, f)
  {
    var r := Moved(b, d, Size, rule);
    forall l | 0 <= l < Size
      ensures Total(Line(r, d, l), f) == Total(Line(b, d, l), f)
    {
      MovedLine(b, d, Size, l, rule);
      LineTiles(b, d, l);
    }
    BoardTotal(r, d, f);
    BoardTotal(b, d, f);
  }

  /** The points of the four lines. */
  lemma GainOfFour(b: seq<int>, d: Direction, rule: seq<int> -> Pass)
    requires IsBoard(b)
    ensures SlideGain(b, d, Size, rule) ==
      rule(Line(b, d, 0)).gain + rule(Line(b, d, 1)).gain + rule(Line(b, d, 2)).gain + rule(Line(b, d, 3)).gain
  {
    assert SlideGain(b, d, 1, rule) == rule(Line(b, d, 0)).gain;
    assert SlideGain(b, d, 2, rule) == SlideGain(b, d, 1, rule) + rule(Line(b, d, 1)).gain;
    assert SlideGain(b, d, 3, rule) == SlideGain(b, d, 2, rule) + rule(Line(b, d, 2)).gain;
  }

  /** A move by a rule that raises a total by its points on every line
      raises it by the points of the whole move. */
  lemma MovedScores(b: seq<int>, d: Direction, rule: seq<int> -> Pass, f: int -> int)
    requires IsBoard(b) && AllTiles(b) && KeepsLength(rule) && ScoresTotal(rule, f)
    ensures Total(Moved(b, d, Size, rule), f) == Total(b, f) + SlideGain(b, d, Size, rule)
  {
    var r := Moved(b, d, Size, rule);
    forall l | 0 <= l < Size
      ensures Total(Line(r, d, l), f) == Total(Line(b, d, l), f) + rule(Line(b, d, l)).gain
    {
      MovedLine(b, d, Size, l, rule);
      LineTiles(b, d, l);
    }
    BoardTotal(r, d, f);
    BoardTotal(b, d, f);
    GainOfFour(b, d, rule);
  }

  /** A move animates nothing exactly when no line has an event. */
  lemma {:induction false} SlideAnimsQuiet(b: seq<int>, d: Direction, n: nat, rule: seq<int> -> Pass)
    requires IsBoard(b) && n <= Size
    ensures SlideAnims(b, d, n, rule) == [] <==>
            forall m :: 0 <= m < n ==> rule(Line(b, d, m)).events == []
  {
    if n > 0 {
      SlideAnimsQuiet(b, d, n - 1, rule);
    }
  }

  /** A move keeps the sum of the tiles, scores exactly the potential it
      adds, keeps every cell a tile, and animates something exactly when
      the board changes (the `moved` flag of the original). */
  lemma MoveBoardFacts(b: seq<int>, d: Direction)
    requires IsBoard(b) && AllTiles(b)
    ensures var r := MoveBoard(b, d);
      && Total(r.board, Id) == Total(b, Id)
      && Total(r.board, Pot) == Total(b, Pot) + r.gain
      && AllTiles(r.board)
      && (r.anims == [] <==> r.board == b)
  {
    MoveBoardTotals(b, d);
    MoveBoardQuiet(b, d);
  }

  lemma MoveBoardTotals(b: seq<int>, d: Direction)
    requires IsBoard(b) && AllTiles(b)
    ensures var r := MoveBoard(b, d);
      && Total(r.board, Id) == Total(b, Id)
      && Total(r.board, Pot) == Total(b, Pot) + r.gain
      && AllTiles(r.board)
  {
    ProcessLineRule();
    MovedTiles(b, d, Size, ProcessLine);
    MovedKeeps(b, d, ProcessLine, Id);
    MovedScores(b, d, ProcessLine, Pot);
  }

  lemma MoveBoardQuiet(b: seq<int>, d: Direction)
    requires IsBoard(b) && AllTiles(b)
    ensures var r := MoveBoard(b, d);
      r.anims == [] <==> r.board == b
  {
    ProcessLineRule();
    QuietMoved(b, d, ProcessLine);
    MovedQuiet(b, d, ProcessLine);
  }

  /** A move without animations leaves the board as it was... */
  lemma QuietMoved(b: seq<int>, d: Direction, rule: seq<int> -> Pass)
    requires IsBoard(b) && AllTiles(b) && KeepsLength(rule) && QuietIffUnchanged(rule)
    ensures SlideAnims(b, d, Size, rule) == [] ==> Moved(b, d, Size, rule) == b
  {
    if SlideAnims(b, d, Size, rule) == [] {
      var r := Moved(b, d, Size, rule);
      SlideAnimsQuiet(b, d, Size, rule);
      forall m | 0 <= m < Size
        ensures Line(r, d, m) == Line(b, d, m)
      {
        MovedLine(b, d, Size, m, rule);
        LineTiles(b, d, m);
      }
      SameLines(r, b, d);
    }
  }

  /** ...and a move that leaves the board as it was has no animations. */
  lemma MovedQuiet(b: seq<int>, d: Direction, rule: seq<int> -> Pass)
    requires IsBoard(b) && AllTiles(b) && KeepsLength(rule) && QuietIffUnchanged(rule)
    ensures Moved(b, d, Size, rule) == b ==> SlideAnims(b, d, Size, rule) == []
  {
    if Moved(b, d, Size, rule) == b {
      forall m | 0 <= m < Size
        ensures rule(Line(b, d, m)).events == []
      {
        MovedLine(b, d, Size, m, rule);
        LineTiles(b, d, m);
      }
      SlideAnimsQuiet(b, d, Size, rule);
    }
  }

  // ---------------------------------------------------------------------
  // canMove
  // ---------------------------------------------------------------------

  function At(b: seq<int>, i: nat, j: nat): int
    requires IsBoard(b) && i < Size && j < Size
  {
    b[4 * i + j]
  }

  predicate HasEmpty(b: seq<int>)
    requires IsBoard(b)
  {
    exists k :: 0 <= k < 16 && b[k] == 0
  }

  /** Two equal cells side by side or one above the other. */
  predicate HasPair(b: seq<int>)
    requires IsBoard(b)
  {
    exists i, j :: 0 <= i < Size && 0 <= j < Size &&
      ((j < Size - 1 && At(b, i, j) == At(b, i, j + 1)) || (i < Size - 1 && At(b, i, j) == At(b, i + 1, j)))
  }

  predicate CanMoveSpec(b: seq<int>)
    requires IsBoard(b)
  {
    HasEmpty(b) || HasPair(b)
  }

  /** On a board that cannot move, every line of every direction is stuck. */
  lemma StuckLines(b: seq<int>, d: Direction, l: nat)
    requires IsBoard(b) && l < Size && !CanMoveSpec(b)
    ensures Stuck(Line(b, d, l))
  {
    var c := Line(b, d, l);
    forall p | 0 < p < Size
      ensures c[p - 1] != c[p]
    {
      match d
      case Left => assert !(At(b, l, p - 1) == At(b, l, p - 1 + 1));
      case Right => assert !(At(b, l, 3 - p) == At(b, l, 3 - p + 1));
      case Up => assert !(At(b, p - 1, l) == At(b, p - 1 + 1, l));
      case Down => assert !(At(b, 3 - p, l) == At(b, 3 - p + 1, l));
    }
  }

  /** When `canMove` is false no direction changes anything: the game is
      never declared over while a swipe could still move a tile. */
  lemma StuckBoard(b: seq<int>, d: Direction, rule: seq<int> -> Pass)
    requires IsBoard(b) && !CanMoveSpec(b) && KeepsLength(rule) && KeepsStuck(rule)
    ensures Moved(b, d, Size, rule) == b && SlideGain(b, d, Size, rule) == 0 && SlideAnims(b, d, Size, rule) == []
  {
    StuckMoved(b, d, rule);
    StuckQuiet(b, d, Size, rule);
  }

  lemma StuckMoved(b: seq<int>, d: Direction, rule: seq<int> -> Pass)
    requires IsBoard(b) && !CanMoveSpec(b) && KeepsLength(rule) && KeepsStuck(rule)
    ensures Moved(b, d, Size, rule) == b
  {
    forall k | 0 <= k < 16
      ensures Moved(b, d, Size, rule)[k] == b[k]
    {
      StuckLines(b, d, LineOf(d, k));
      IndexOfLineOf(d, k);
    }
  }

  lemma {:induction false} StuckQuiet(b: seq<int>, d: Direction, n: nat, rule: seq<int> -> Pass)
    requires IsBoard(b) && n <= Size && !CanMoveSpec(b) && KeepsStuck(rule)
    ensures SlideGain(b, d, n, rule) == 0 && SlideAnims(b, d, n, rule) == []
  {
    if n > 0 {
      StuckQuiet(b, d, n - 1, rule);
      StuckLines(b, d, n - 1);
    }
  }

  // ---------------------------------------------------------------------
  // The game object as a value
  // ---------------------------------------------------------------------

  /** The snapshot of the game object's simulation fields. */
  datatype Play = Play(
    state: GameState,
    score: int,
    highScore: int,
    board: seq<int>,
    animating: bool,
    animations: seq<Animation>)

  /** The empty cells among the first `n`, in the row-major order of the
      nested loops of `addRandomTile`. */
  function EmptyCells(b: seq<int>, n: nat): (r: seq<nat>)
    requires IsBoard(b) && n <= 16
    ensures forall i :: 0 <= i < |r| ==> r[i] < n
  {
    if n == 0 then []
    else EmptyCells(b, n - 1) + (if b[n - 1] == 0 then [n - 1] else [])
  }

  lemma {:induction false} EmptyCellsMembers(b: seq<int>, n: nat, k: nat)
    requires IsBoard(b) && n <= 16
    ensures k in EmptyCells(b, n) <==> k < n && b[k] == 0
  {
    if n > 0 {
      EmptyCellsMembers(b, n - 1, k);
    }
  }

  /** The value of a new tile for a draw in [0, 1). */
  function NewTile(roll: real): (v: int)
    ensures v == 2 || v == 4
  {
    if roll < TwoChance then 2 else 4
  }

  /** `addRandomTile`: a 2 or a 4 on an empty cell chosen by `cellRoll`,
      with an appear animation; nothing when the board is full. */
  function AddTile(p: Play, cellRoll: real, valueRoll: real): (r: Play)
    requires IsBoard(p.board) && 0.0 <= cellRoll < 1.0
    ensures IsBoard(r.board)
  {
    var cells := EmptyCells(p.board, 16);
    if |cells| == 0 then p
    else
      var k := cells[Pick(cellRoll, |cells|)];
      p.(board := p.board[k := NewTile(valueRoll)],
         animations := p.animations + [Appear(k / 4, k % 4, 0.0, AppearDuration)])
  }

  /** A new tile lands on a cell that was empty, adds 2 or 4 to the tile
      sum and keeps every cell a tile; a full board is left alone. */
  lemma AddTileSpec(p: Play, cellRoll: real, valueRoll: real)
    requires IsBoard(p.board) && 0.0 <= cellRoll < 1.0
    ensures var r := AddTile(p, cellRoll, valueRoll);
      if HasEmpty(p.board) then
        exists k :: 0 <= k < 16 && p.board[k] == 0
          && r == p.(board := p.board[k := NewTile(valueRoll)],
                     animations := p.animations + [Appear(k / 4, k % 4, 0.0, AppearDuration)])
          && Total(r.board, Id) == Total(p.board, Id) + NewTile(valueRoll)
          && (AllTiles(p.board) ==> AllTiles(r.board))
      else
        r == p
  {
    var cells := EmptyCells(p.board, 16);
    if HasEmpty(p.board) {
      var e :| 0 <= e < 16 && p.board[e] == 0;
      EmptyCellsMembers(p.board, 16, e);
      var k := cells[Pick(cellRoll, |cells|)];
      EmptyCellsMembers(p.board, 16, k);
      TotalUpdate(p.board, Id, k, NewTile(valueRoll));
      assert IsTile(NewTile(valueRoll)) by {
        assert IsPowerOfTwo(2) by { assert IsPowerOfTwo(1); }
        assert IsPowerOfTwo(4) by { assert IsPowerOfTwo(2) by { assert IsPowerOfTwo(1); } }
      }
    } else if |cells| > 0 {
      EmptyCellsMembers(p.board, 16, cells[0]);
    }
  }

  /** The board `resetGame` clears before placing the first two tiles. */
  const EmptyBoard: seq<int> := [0, 0, 0, 0, 0, 0, 0, 0, 0, 0, 0, 0, 0, 0, 0, 0]

  /** `resetGame`: empty board, no score, no animations, then two tiles. */
  function Reset(p: Play, cellRoll1: real, valueRoll1: real, cellRoll2: real, valueRoll2: real): Play
    requires 0.0 <= cellRoll1 < 1.0 && 0.0 <= cellRoll2 < 1.0
  {
    AddTile(AddTile(Cleared(p), cellRoll1, valueRoll1), cellRoll2, valueRoll2)
  }

  /** The first half of `resetGame`: an empty board, no score, no
      animations, a game in progress. */
  function Cleared(p: Play): Play
  {
    p.(board := EmptyBoard, score := 0, state := Playing, animating := false, animations := [])
  }

  /** Two tiles added to an empty board without animations land on two
      different cells, each with its appear animation. */
  lemma {:induction false} TwoTiles(q: Play, cellRoll1: real, valueRoll1: real, cellRoll2: real, valueRoll2: real)
    requires IsBoard(q.board) && 0.0 <= cellRoll1 < 1.0 && 0.0 <= cellRoll2 < 1.0
    requires (forall k :: 0 <= k < 16 ==> q.board[k] == 0) && q.animations == []
    ensures var r := AddTile(AddTile(q, cellRoll1, valueRoll1), cellRoll2, valueRoll2);
      && r == q.(board := r.board, animations := r.animations)
      && AllTiles(r.board)
      && exists k1, k2 :: 0 <= k1 < 16 && 0 <= k2 < 16 && k1 != k2
           && r.board == q.board[k1 := NewTile(valueRoll1)][k2 := NewTile(valueRoll2)]
           && r.animations == [Appear(k1 / 4, k1 % 4, 0.0, AppearDuration),
                               Appear(k2 / 4, k2 % 4, 0.0, AppearDuration)]
  {
    assert q.board[0] == 0 && q.board[1] == 0;
    assert AllTiles(q.board);
    AddTileSpec(q, cellRoll1, valueRoll1);
    var once := AddTile(q, cellRoll1, valueRoll1);
    var k1 :| 0 <= k1 < 16 && q.board[k1] == 0
      && once == q.(board := q.board[k1 := NewTile(valueRoll1)],
                    animations := q.animations + [Appear(k1 / 4, k1 % 4, 0.0, AppearDuration)]);
    var other := if k1 == 0 then 1 else 0;
    assert once.board[other] == 0;
    AddTileSpec(once, cellRoll2, valueRoll2);
    var r := AddTile(once, cellRoll2, valueRoll2);
    var k2 :| 0 <= k2 < 16 && once.board[k2] == 0
      && r == once.(board := once.board[k2 := NewTile(valueRoll2)],
                    animations := once.animations + [Appear(k2 / 4, k2 % 4, 0.0, AppearDuration)]);
    assert k1 != k2;
    var a1 := Appear(k1 / 4, k1 % 4, 0.0, AppearDuration);
    var a2 := Appear(k2 / 4, k2 % 4, 0.0, AppearDuration);
    assert once.animations == [a1];
    assert r.animations == [a1, a2];
    assert r.board == q.board[k1 := NewTile(valueRoll1)][k2 := NewTile(valueRoll2)];
  }

  /** A new game has exactly two tiles, each a 2 or a 4, on two different
      cells, each with its appear animation; the best score is kept. */
  lemma ResetSpec(p: Play, cellRoll1: real, valueRoll1: real, cellRoll2: real, valueRoll2: real)
    requires 0.0 <= cellRoll1 < 1.0 && 0.0 <= cellRoll2 < 1.0
    ensures var r := Reset(p, cellRoll1, valueRoll1, cellRoll2, valueRoll2);
      && r.state == Playing && r.score == 0 && r.highScore == p.highScore && !r.animating
      && AllTiles(r.board)
      && exists k1, k2 :: 0 <= k1 < 16 && 0 <= k2 < 16 && k1 != k2
           && r.board == EmptyBoard[k1 := NewTile(valueRoll1)][k2 := NewTile(valueRoll2)]
           && r.animations == [Appear(k1 / 4, k1 % 4, 0.0, AppearDuration),
                               Appear(k2 / 4, k2 % 4, 0.0, AppearDuration)]
  {
    TwoTiles(Cleared(p), cellRoll1, valueRoll1, cellRoll2, valueRoll2);
  }

  /** What `moveTiles` does after a move that changed the grid: a new
      tile, then the game ends when no direction can move anything. */
  function Spawn(p: Play, cellRoll: real, valueRoll: real): Play
    requires IsBoard(p.board) && 0.0 <= cellRoll < 1.0
  {
    var p2 := AddTile(p, cellRoll, valueRoll);
    if CanMoveSpec(p2.board) then p2 else p2.(state := GameOver)
  }

  /** `moveTiles(direction)`: refused while animating; otherwise the move,
      and when something moved a new tile and the `canMove` check. Returns
      the new game and the `moved` flag. */
  function AfterMove(p: Play, d: Direction, cellRoll: real, valueRoll: real): (Play, bool)
    requires IsBoard(p.board) && 0.0 <= cellRoll < 1.0
  {
    if p.animating then (p, false)
    else
      var r := MoveBoard(p.board, d);
      var moved := r.anims != [];
      var p1 := p.(board := r.board, score := p.score + r.gain, animations := p.animations + r.anims);
      if !moved then (p1, false) else (Spawn(p1, cellRoll, valueRoll), true)
  }

  /** A swipe that moves nothing leaves the game exactly as it was; one
      that moves changes the board, keeps every cell a tile, and ends the
      game only on a board where no direction can move anything. */
  lemma AfterMoveSpec(p: Play, d: Direction, cellRoll: real, valueRoll: real)
    requires IsBoard(p.board) && AllTiles(p.board) && 0.0 <= cellRoll < 1.0
    ensures var (r, moved) := AfterMove(p, d, cellRoll, valueRoll);
      && IsBoard(r.board) && AllTiles(r.board)
      && (moved <==> !p.animating && MoveBoard(p.board, d).board != p.board)
      && (!moved ==> r == p)
      && (moved ==> r.score == p.score + MoveBoard(p.board, d).gain)
      && (r.state == GameOver && p.state != GameOver ==>
            forall d' :: MoveBoard(r.board, d') == BoardPass(r.board, 0, []))
  {
    if !p.animating {
      var m := MoveBoard(p.board, d);
      MoveBoardFacts(p.board, d);
      var p1 := p.(board := m.board, score := p.score + m.gain, animations := p.animations + m.anims);
      AddTileSpec(p1, cellRoll, valueRoll);
      var p2 := AddTile(p1, cellRoll, valueRoll);
      if !CanMoveSpec(p2.board) {
        forall d' | true
          ensures MoveBoard(p2.board, d') == BoardPass(p2.board, 0, [])
        {
          ProcessLineRule();
          StuckBoard(p2.board, d', ProcessLine);
        }
      }
    }
  }

  /** One animation after `dt` more milliseconds. */
  function Advance(a: Animation, dt: real): Animation
  {
    a.(progress := a.progress + dt)
  }

  predicate Finished(a: Animation)
  {
    a.progress >= a.duration
  }

  /** The backward loop of `update`: every animation advances by `dt` and
      the finished ones are spliced out; order is kept. */
  function TickAnimations(s: seq<Animation>, dt: real): (r: seq<Animation>)
  {
    if s == [] then []
    else
      var a := Advance(s[0], dt);
      (if Finished(a) then [] else [a]) + TickAnimations(s[1..], dt)
  }

  /** What survives a tick: exactly the advanced animations not finished,
      so none is finished and none is new. */
  lemma {:induction false} TickAnimationsSpec(s: seq<Animation>, dt: real)
    ensures var r := TickAnimations(s, dt);
      && |r| <= |s|
      && (forall i :: 0 <= i < |r| ==> !Finished(r[i]) && Advance(r[i], -dt) in s)
      && (forall i :: 0 <= i < |s| && !Finished(Advance(s[i], dt)) ==> Advance(s[i], dt) in r)
  {
    if s != [] {
      TickAnimationsSpec(s[1..], dt);
      var a := Advance(s[0], dt);
      var rest := TickAnimations(s[1..], dt);
      assert Advance(a, -dt) == s[0];
      forall i | 0 <= i < |rest|
        ensures Advance(rest[i], -dt) in s
      {
        assert Advance(rest[i], -dt) in s[1..];
      }
      forall i | 0 <= i < |s| && !Finished(Advance(s[i], dt))
        ensures Advance(s[i], dt) in TickAnimations(s, dt)
      {
        if i > 0 {
          assert s[i] == s[1..][i - 1];
        }
      }
    }
  }

  /** `update(deltaTime)`: `animating` tells whether animations were
      pending before this frame, the animations tick, and the best score
      catches up with the score. */
  function Update(p: Play, dt: real): (r: Play)
  {
    p.(animating := |p.animations| > 0,
       animations := TickAnimations(p.animations, dt),
       highScore := Max(p.highScore, p.score))
  }

  /** The simulation part of `animate`: only a game in progress updates. */
  function Frame(p: Play, dt: real): (r: Play)
  {
    if p.state == Playing then Update(p, dt) else p
  }

  /** The best score never decreases, catches up with the score on every
      frame of a game in progress, and freezes once the game is over: the
      points of the move that ends the game are not recorded as best score
      by the frame loop. */
  lemma FrameHighScore(p: Play, dt: real)
    ensures var r := Frame(p, dt);
      && r.highScore >= p.highScore
      && (p.state == Playing ==> r.highScore >= p.score && r.score == p.score)
      && (p.state != Playing ==> r == p)
  {
  }
}
