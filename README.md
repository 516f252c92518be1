# Mini-game suite: verified model of the game logic

This project is a Dafny model of the simulation core of a WeChat mini-game
suite. The suite has three canvas games and one cloud function:

- the grid snake game (`games/game1/main.js`);
- 2048 on a 4 × 4 board (`games/game2/main.js`);
- a vertical shooter with enemies, power-ups and explosions (`games/game3/main.js`);
- the `updateScore` cloud function, which adds reported points to a
  player's total and unlocks games at 0, 1000 and 3000 points
  (`cloudfunctions/updateScore/index.js`).

Each game is modelled twice, in two layers.

- **A rules module** (`SnakeRules`, `TileRules`, `ShooterRules`). It holds a
  value snapshot of the game object's simulation fields (`World`, `Play`,
  `Arena`) and one function per operation. Lemmas state what each operation
  promises: the invariant the game keeps, the scoring, the collision outcomes
  and the timers.
- **A game module** (`SnakeGame`, `TileGame`, `ShooterGame`). It holds a
  `class Game` with the original fields, updated in place by methods with the
  original loops: backward splicing loops, nested grid loops and a `while`
  slide. Every method is proved to leave the object in the state the rules
  function computes, `Snapshot() == Spec(old(Snapshot()), …)`. The class
  predicate `Valid()` is the rules invariant of the snapshot.

The 2048 grid is an `array2<int>`. Lists the originals mutate (the snake
body, bullets, enemies, power-ups, explosions and animations) are `seq`
fields that the methods reassign.

Every `Math.random()` draw is a parameter, either a real number in [0, 1) or
a `Rolls` value of draws for one shooter frame. Frame timestamps are
parameters too.

`Common` holds what all three games share:

- the game states and the four directions;
- screen rectangles and the back button;
- the swipe classification;
- the translation of a random draw into a list index.

`ScoreUnlock` models the cloud function. The database query result and the
await that throws are parameters, and the writes are returned as values.

## Model

| member | source | states |
|---|---|---|
| Common.Opposite | games/game1/main.js:348-361 | the reverse of a direction differs from it |
| Common.Pick | games/game1/main.js:136 | `Math.floor(Math.random() * n)` is an index below n, the floor of roll × n |
| Common.Swipe | games/game2/main.js:455-469 | a drag is a swipe along its dominant axis exactly when that axis is longer than the minimum distance; its sign gives the direction |
| SnakeRules.Advance | games/game1/main.js:225-238 | the new head is one cell away from the old one, in the heading's direction |
| SnakeRules.FreeCellsMembers | games/game1/main.js:109-127 | the candidate list holds exactly the grid cells that are not on the snake (and, for special food, not the food) |
| SnakeRules.FreeInColumnMembers | games/game1/main.js:112-126 | one column's candidates are its free cells |
| SnakeRules.FreeCellsAt | games/game1/main.js:136-137 | every candidate the draw selects is a free grid cell |
| SnakeRules.EndGame | games/game1/main.js:734-740 | game over enters GameOver, and the best score becomes the larger of the score and the old best; nothing else changes |
| SnakeRules.PlaceFoodSpec | games/game1/main.js:107-138 | food lands on a free grid cell when there is one, otherwise the game ends; nothing else changes |
| SnakeRules.PlaceSpecialFoodSpec | games/game1/main.js:141-181 | special food lands on a free cell that is not the food and lives 5000 ms; with no such cell nothing changes |
| SnakeRules.ResetSpec | games/game1/main.js:83-104 | a new game is well formed and playing: a 3-cell snake heading right, score 0, speed 10, food placed, no special food, best score kept |
| SnakeRules.StepCrash | games/game1/main.js:240-257 | a head off the grid or on the body ends the game with snake, score and speed unchanged |
| SnakeRules.StepMove | games/game1/main.js:259-288 | otherwise the head is prepended; the tail is dropped unless something was eaten; food scores 10 and special food 50 |
| SnakeRules.StepSpeed | games/game1/main.js:272-275 | speed rises by one, up to 20, exactly on a food step reaching a multiple of 50 |
| SnakeRules.StepWellFormed | games/game1/main.js:217-289 | a step keeps the snake distinct and on the grid, food on free cells, speed in [10, 20] and no pending reversal |
| SnakeRules.GrowBody | games/game1/main.js:240-261 | when the step does not crash, the snake with its new head is on the grid and has no repeated cell |
| SnakeRules.FeastWellFormed | games/game1/main.js:259-283 | after the head is pushed and whatever lies there is eaten, the invariant holds |
| SnakeRules.FeastOnFoodWellFormed | games/game1/main.js:266-276 | when the food is eaten, the new food avoids the grown snake or the full board ends the game, and the invariant holds |
| SnakeRules.DropTailWellFormed | games/game1/main.js:285-287 | dropping the tail of a snake of two or more cells keeps the invariant |
| SnakeRules.StepKeepsTimers | games/game1/main.js:217-289 | a step leaves the special-food timers and the accumulator alone and creates no special food |
| SnakeRules.TickIdle | games/game1/main.js:185 | update does nothing unless playing |
| SnakeRules.MoveIntervalExact | games/game1/main.js:209 | the move interval is 1000 / speed milliseconds: interval × speed = 1000, and it is positive |
| SnakeRules.StepIfDueTimers | games/game1/main.js:209-213 | with a whole interval accumulated, the interval is subtracted and a step follows; otherwise nothing changes; the special-food clock is untouched either way |
| SnakeRules.SpecialFoodTickFrame | games/game1/main.js:190-206 | only the special food and its two timers change: a present one ages and expires at 0; otherwise the period timer runs and restarts at 15000 ms |
| SnakeRules.TickAccumulator | games/game1/main.js:188-213 | one step happens exactly when a whole move interval has accumulated, and the interval is then subtracted |
| SnakeRules.TickSpecialFood | games/game1/main.js:190-206 | special food ages and expires at 0; without it, the 15000 ms period timer runs and restarts |
| SnakeRules.SpecialFoodTickWellFormed | games/game1/main.js:190-206 | the special-food bookkeeping keeps the invariant |
| SnakeRules.StepIfDueWellFormed | games/game1/main.js:209-213 | a due step keeps the invariant |
| SnakeRules.TickWellFormed | games/game1/main.js:184-214 | a whole frame update keeps the invariant |
| SnakeRules.Turn | games/game1/main.js:348-362 | a swipe becomes the next direction unless it reverses the current one, so no pending reversal can arise |
| SnakeGame.Game.constructor | games/game1/main.js:4-80 | a start screen with the grid measured in 20 px cells and the saved best score |
| SnakeGame.Game.Occupied | games/game1/main.js:114-120 | the inner search finds a segment at (x, y) exactly when the cell is on the snake |
| SnakeGame.Game.AvailablePositions | games/game1/main.js:109-127 | the nested loops build exactly the candidate list of the rules |
| SnakeGame.Game.GameOver | games/game1/main.js:734-740 | the object becomes EndGame of its snapshot |
| SnakeGame.Game.GenerateFood | games/game1/main.js:107-138 | the object becomes PlaceFood of its snapshot |
| SnakeGame.Game.GenerateSpecialFood | games/game1/main.js:141-181 | the object becomes PlaceSpecialFood of its snapshot |
| SnakeGame.Game.ResetGame | games/game1/main.js:83-104 | the object becomes Reset of its snapshot and stays valid |
| SnakeGame.Game.Respawn | games/game1/main.js:85-95 | the object becomes Newborn of its snapshot: the three-cell snake in the middle row heading right, score 0, speed 10, playing |
| SnakeGame.Game.MoveSnake | games/game1/main.js:217-289 | the object becomes Step of its snapshot |
| SnakeGame.Game.TakeFood | games/game1/main.js:266-276 | reports eating exactly when the head is on the food, and the object becomes EatFood of its snapshot |
| SnakeGame.Game.TakeSpecialFood | games/game1/main.js:279-283 | reports eating exactly when the head is on the special food, and the object becomes EatSpecialFood of its snapshot |
| SnakeGame.Game.UpdateSpecialFood | games/game1/main.js:190-206 | the object becomes SpecialFoodTick of its snapshot |
| SnakeGame.Game.Update | games/game1/main.js:184-214 | the object becomes Tick of its snapshot |
| SnakeGame.Game.Animate | games/game1/main.js:380-403 | the time since the last frame drives Tick; the object stays valid |
| SnakeGame.Game.HandleTouchStart | games/game1/main.js:292-329 | back button exits; the pause button toggles Playing and Paused; a touch on the start or game-over screen resets; otherwise the touch is recorded |
| SnakeGame.Game.HandleTouchMove | games/game1/main.js:332-367 | while playing, a drag since the recorded touch applies Turn, and the touch point moves on |
| TileRules.Slide | games/game2/main.js:176-193 | the sliding tile keeps its value, moves toward the edge through empty cells, one event per step |
| TileRules.SlideTotal | games/game2/main.js:176-193 | sliding keeps every total that ignores empty cells |
| TileRules.SlideWeight | games/game2/main.js:176-193 | every slide step moves the tile one cell closer to the edge |
| TileRules.SlideTiles | games/game2/main.js:176-193 | sliding keeps every cell a tile (0 or a power of two) |
| TileRules.MergeTotals | games/game2/main.js:196-212 | a merge keeps the tile sum and scores exactly the potential it adds |
| TileRules.MergeShape | games/game2/main.js:196-212 | a merge keeps tiles tiles and reports an event exactly when it changes the line |
| TileRules.ProcessTileFacts | games/game2/main.js:173-213 | one tile's turn keeps the tile sum, scores the potential it adds, and has events exactly when it changes the line |
| TileRules.ProcessPrefixFacts | games/game2/main.js:173-214 | the same for a whole line |
| TileRules.StuckLine | games/game2/main.js:173-214 | a full line without equal neighbours is left as it is, scoring nothing |
| TileRules.CascadeLine | games/game2/main.js:173-214 | moving 2 2 4 _ toward the edge gives 8 _ _ _ and scores 12: the merged 4 merges again in the same sweep |
| TileRules.GapLine | games/game2/main.js:173-214 | moving 2 _ _ 2 toward the edge slides the far 2 over both gaps, then merges: 4 _ _ _, scoring 4 |
| TileRules.ProcessLineRule | games/game2/main.js:169-374 | the line rule of all four moves has every property above |
| TileRules.LineOfIndex | games/game2/main.js:169-374 | the four loop orders visit each board cell through exactly one line and position |
| TileRules.IndexOfLineOf | games/game2/main.js:169-374 | every board cell lies on a line of each direction |
| TileRules.SetLineAt | games/game2/main.js:178-198 | writing a line changes exactly the cells on that line |
| TileRules.LineOfSetLine | games/game2/main.js:169-374 | reading back a written line gives what was written; other lines are untouched |
| TileRules.SetLineOfLine | games/game2/main.js:169-374 | writing a line with its own contents changes nothing |
| TileRules.SameLines | games/game2/main.js:169-374 | boards agreeing on every line of a direction are equal |
| TileRules.BoardTotal | games/game2/main.js:169-374 | a total over the board is the sum over the four lines of any direction |
| TileRules.Animations | games/game2/main.js:184-211 | one animation per slide or merge event |
| TileRules.SlideStep | games/game2/main.js:172-215 | processing the next line of the board moved so far is the next line of the move |
| TileRules.MovedLine | games/game2/main.js:172-215 | each line of a moved board is that line processed on its own |
| TileRules.MovedScores | games/game2/main.js:199 | a move raises the total potential by exactly the points it scores |
| TileRules.MoveBoardFacts | games/game2/main.js:169-374 | a move keeps the tile sum and every cell a tile, scores the potential it adds, and animates exactly when the board changes (the `moved` flag) |
| TileRules.QuietMoved | games/game2/main.js:170-200 | a move without animations leaves the board as it was |
| TileRules.MovedQuiet | games/game2/main.js:170-200 | a move that leaves the board as it was has no animations |
| TileRules.StuckLines | games/game2/main.js:377-405 | when canMove is false, every line of every direction is stuck |
| TileRules.StuckBoard | games/game2/main.js:377-405 | when canMove is false, no direction changes, scores or animates anything |
| TileRules.EmptyCellsMembers | games/game2/main.js:107-114 | the candidate list holds exactly the empty cells |
| TileRules.NewTile | games/game2/main.js:123 | a new tile is a 2 or a 4 |
| TileRules.AddTileSpec | games/game2/main.js:105-133 | a new tile lands on an empty cell with an appear animation, adding 2 or 4 to the tile sum; a full board is left alone |
| TileRules.TwoTiles | games/game2/main.js:100-101 | the two initial tiles land on two different cells |
| TileRules.ResetSpec | games/game2/main.js:84-102 | a new game is playing with score 0, two tiles on two different cells, and the best score kept |
| TileRules.AfterMoveSpec | games/game2/main.js:136-166 | a swipe moves exactly when not animating and the board changes; otherwise nothing changes; the game ends only on a board no direction can move |
| TileRules.TickAnimationsSpec | games/game2/main.js:515-523 | the surviving animations are exactly the advanced, unfinished ones |
| TileRules.FrameHighScore | games/game2/main.js:487-527 | the best score never decreases and catches up with the score on every frame of a game in progress |
| TileGame.Game.constructor | games/game2/main.js:4-81 | a start screen, an empty grid and the saved best score |
| TileGame.Game.SetCell | games/game2/main.js:178-179 | one grid write changes one board cell |
| TileGame.Game.EmptyCellList | games/game2/main.js:107-114 | the nested loops list the empty cells in row-major order |
| TileGame.Game.AddRandomTile | games/game2/main.js:105-133 | the object becomes AddTile of its snapshot |
| TileGame.Game.StepTile | games/game2/main.js:177-192 | one slide step moves the tile one cell and pushes a move animation |
| TileGame.Game.SlideTile | games/game2/main.js:175-193 | the `while` loop performs Slide |
| TileGame.Game.MergeTile | games/game2/main.js:196-212 | the merge test performs MergeAt |
| TileGame.Game.MoveTileAt | games/game2/main.js:174-213 | one inner-loop iteration performs ProcessTile |
| TileGame.Game.MoveLine | games/game2/main.js:173-214 | the inner loop performs ProcessLine on one line |
| TileGame.Game.MoveInDirection | games/game2/main.js:169-374 | the four move routines produce the moved board, the points and the animations, and return `moved` exactly when something was animated |
| TileGame.Game.CanMove | games/game2/main.js:377-405 | canMove is true exactly when the board has an empty cell or two equal neighbours |
| TileGame.Game.GameOver | games/game2/main.js:794-801 | only the state changes, to GameOver |
| TileGame.Game.SpawnTile | games/game2/main.js:156-163 | the object becomes Spawn of its snapshot |
| TileGame.Game.MoveTiles | games/game2/main.js:136-166 | the object and the returned flag are AfterMove of its snapshot |
| TileGame.Game.ClearGrid | games/game2/main.js:86-92 | every cell becomes 0 |
| TileGame.Game.ResetGame | games/game2/main.js:84-102 | the object becomes Reset of its snapshot |
| TileGame.Game.Update | games/game2/main.js:511-536 | the object becomes Update of its snapshot |
| TileGame.Game.TickAll | games/game2/main.js:513-522 | the backward loop leaves exactly TickAnimations of the old list: each animation advanced, the finished ones removed, the order kept |
| TileGame.Game.TickOne | games/game2/main.js:513-522 | one pass of that loop extends the processed suffix by one animation |
| TileGame.Game.Animate | games/game2/main.js:487-508 | the object becomes Frame of its snapshot and stays valid |
| TileGame.Game.HandleTouchStart | games/game2/main.js:408-436 | back button exits; a touch on the start or game-over screen resets; otherwise the touch is recorded |
| TileGame.Game.HandleTouchEnd | games/game2/main.js:439-474 | while playing, with a recorded touch, a long enough drag moves the tiles in its direction; the touch is cleared |
| ShooterRules.CollideIsOverlap | games/game3/main.js:518-525 | collision is symmetric and holds exactly when the rectangles share an interior point |
| ShooterRules.TickTimersSpec | games/game3/main.js:171-191 | each active ability's timer counts down by one and the ability ends when it reaches 0; the plane does not move |
| ShooterRules.TickTimersConsistent | games/game3/main.js:171-191 | the countdown keeps each ability's flag consistent with its timer |
| ShooterRules.Shot | games/game3/main.js:235-271 | one bullet, or three with rapid fire, all moving up at speed 10 |
| ShooterRules.FireSpec | games/game3/main.js:194-202 | a touch with the cooldown at most 1 fires and restarts the cooldown; otherwise the cooldown counts down to 0; nothing else changes |
| ShooterRules.SurvivorsMembers | games/game3/main.js:274-284 | the backward sweep (here over bullets; enemies, power-ups and explosions use the same one) keeps exactly the moved items that are still in play, in order |
| ShooterRules.SweepStep | games/game3/main.js:274-284 | one backward iteration with splice extends the swept suffix |
| ShooterRules.NewEnemyBounds | games/game3/main.js:287-302 | a new enemy is 30-60 px, just above the screen, inside the width, with speed 1-3 plus 0.2 per level |
| ShooterRules.SpawnStepSpec | games/game3/main.js:208-212 | the counter counts up; one new enemy is appended exactly when the counter reaches or has passed the spawn interval (as after a level-up lowered it), and the counter then restarts at 0; otherwise nothing but the counter changes |
| ShooterRules.DescendSpec | games/game3/main.js:305-326 | enemies move down and those below the screen go; an escape costs one life unless invincible; losing the last life ends the game |
| ShooterRules.LastHit | games/game3/main.js:424-445 | the inner search finds the highest-index enemy the bullet hits, or none |
| ShooterRules.Kill | games/game3/main.js:427-443 | a hit removes the bullet and the enemy, adds an explosion, scores the enemy's width, and may drop a power-up |
| ShooterRules.HitOne | games/game3/main.js:421-446 | one bullet removes at most one enemy, with one explosion per kill |
| ShooterRules.ShootDownCounts | games/game3/main.js:421-446 | kills equal removed bullets, enemies and added explosions; at most one power-up per kill; 30 to 59 points per kill |
| ShooterRules.ShootDownClears | games/game3/main.js:421-446 | afterwards no remaining bullet overlaps a remaining enemy |
| ShooterRules.ChosenWithinTotal | games/game3/main.js:331-343 | the weighted choice always picks a type |
| ShooterRules.SelectKindBands | games/game3/main.js:331-343 | the draw chooses a life up to 0.2, a shield up to 0.6 and rapid fire above |
| ShooterRules.Crash | games/game3/main.js:453-477 | a ram removes the enemy with an explosion; a shield absorbs it, otherwise a life is lost with 60 frames of invincibility |
| ShooterRules.RamLives | games/game3/main.js:449-480 | lives lost ≤ enemies rammed; a shield absorbs one; lives never go below 0 |
| ShooterRules.RamEvery | games/game3/main.js:449-480 | without a shield, each overlapping enemy in the loop costs one life and is removed; the blow that takes the last life ends the game |
| ShooterRules.SeveralLivesPerFrame | games/game3/main.js:449-480 | a vulnerable, unshielded plane overlapping n enemies loses n lives in one frame |
| ShooterRules.RamSpec | games/game3/main.js:449-480 | a life lost leaves the plane invincible; the game ends exactly when the last life goes |
| ShooterRules.CollectPowerups | games/game3/main.js:483-493 | collected power-ups are removed and the others kept in order |
| ShooterRules.CollectSpec | games/game3/main.js:483-515 | collecting never costs a life or exceeds 5 lives; only lives, abilities and the firing interval change |
| ShooterRules.LevelUpSpec | games/game3/main.js:227-231 | the level rises exactly when the score reaches level × 1000, and the spawn interval shrinks by 5 frames, never below 10 |
| ShooterRules.TimersKeepInv | games/game3/main.js:171-202 | the countdowns and firing keep the invariant |
| ShooterRules.SpawnKeepsInv | games/game3/main.js:208-212 | spawning keeps the invariant |
| ShooterRules.DescendKeepsInv | games/game3/main.js:305-326 | moving enemies keeps the invariant |
| ShooterRules.CollisionsKeepInv | games/game3/main.js:419-494 | the collision pass keeps the invariant |
| ShooterRules.StepKeepsInv | games/game3/main.js:169-232 | a playing frame keeps the invariant: plane size, timers, lives within [0, 5] and at least 1 while playing, spawn interval within [10, 60], cooldowns, enemy sizes |
| ShooterRules.ResetSpec | games/game3/main.js:793-809 | a new game is playing with 3 lives, score 0, empty lists and no abilities; the firing interval, the cooldown and the spawn counter are kept, so rapid fire's 5 frames survive a reset |
| ShooterRules.FollowSpec | games/game3/main.js:122-138 | the plane is centred on the touch where possible and always stays on the canvas |
| ShooterGame.Game.constructor | games/game3/main.js:4-72 | a start screen, the 60 px plane with its left edge at mid-width 100 px above the bottom, 3 lives, empty lists and the 15-frame firing interval |
| ShooterGame.Game.CountDownShield | games/game3/main.js:171-176 | the shield counts down |
| ShooterGame.Game.CountDownRapidFire | games/game3/main.js:178-184 | rapid fire counts down and restores the normal interval when it ends |
| ShooterGame.Game.CountDownInvincible | games/game3/main.js:186-191 | invincibility counts down |
| ShooterGame.Game.UpdateTimers | games/game3/main.js:171-191 | the object becomes TickTimers of its snapshot |
| ShooterGame.Game.ShootBullet | games/game3/main.js:235-271 | the bullets of Shot are appended |
| ShooterGame.Game.FireIfReady | games/game3/main.js:194-202 | the object becomes Fire of its snapshot |
| ShooterGame.Game.UpdateBullets | games/game3/main.js:274-284 | the bullets become the moved, still-visible ones |
| ShooterGame.Game.SpawnEnemy | games/game3/main.js:287-302 | the enemy of NewEnemy is appended |
| ShooterGame.Game.CountToSpawn | games/game3/main.js:208-212 | the object becomes SpawnStep of its snapshot |
| ShooterGame.Game.GameOver | games/game3/main.js:783-790 | only the state changes, to GameOver |
| ShooterGame.Game.FallOne | games/game3/main.js:306-325 | one backward iteration of the enemy sweep |
| ShooterGame.Game.UpdateEnemies | games/game3/main.js:305-326 | the object becomes Descend of its snapshot |
| ShooterGame.Game.UpdatePowerups | games/game3/main.js:359-369 | the power-ups become the moved ones still on screen |
| ShooterGame.Game.UpdateExplosions | games/game3/main.js:398-416 | the explosions become the aged ones still burning |
| ShooterGame.Game.CreateExplosion | games/game3/main.js:372-395 | an explosion of half the enemy's width, lasting 30 frames, is appended |
| ShooterGame.Game.PickPowerup | games/game3/main.js:331-343 | the weighted loop with `break` returns SelectKind of the draw |
| ShooterGame.Game.SpawnPowerup | games/game3/main.js:329-356 | a 30 px power-up of the chosen kind is appended |
| ShooterGame.Game.FindTarget | games/game3/main.js:424-445 | the inner loop returns LastHit |
| ShooterGame.Game.Destroy | games/game3/main.js:427-443 | the object becomes Kill of its snapshot |
| ShooterGame.Game.ShootOne | games/game3/main.js:422-445 | the object becomes HitOne of its snapshot |
| ShooterGame.Game.CheckBulletHits | games/game3/main.js:421-446 | the object becomes ShootDown of its snapshot |
| ShooterGame.Game.LoseLife | games/game3/main.js:466-476 | the object becomes Hurt of its snapshot, and it reports whether the lives ran out |
| ShooterGame.Game.RamOne | games/game3/main.js:451-478 | one iteration of the ram loop |
| ShooterGame.Game.CheckPlayerHits | games/game3/main.js:449-480 | the object becomes PlayerPass of its snapshot |
| ShooterGame.Game.ApplyPowerup | games/game3/main.js:497-515 | a life up to 5, a 300-frame shield, or 300 frames of rapid fire with a 5-frame interval |
| ShooterGame.Game.CheckPowerupHits | games/game3/main.js:483-493 | the object becomes Collect of its snapshot |
| ShooterGame.Game.CheckCollisions | games/game3/main.js:419-494 | the object becomes Collisions of its snapshot |
| ShooterGame.Game.CheckLevel | games/game3/main.js:227-231 | the object becomes LevelUp of its snapshot |
| ShooterGame.Game.MoveShots | games/game3/main.js:171-212 | the timers, firing, bullets and spawn counter advance one frame |
| ShooterGame.Game.MoveFoes | games/game3/main.js:214-221 | enemies, power-ups and explosions advance one frame |
| ShooterGame.Game.MoveAll | games/game3/main.js:171-221 | the object becomes Advance of its snapshot |
| ShooterGame.Game.Update | games/game3/main.js:169-232 | the object becomes Step of its snapshot and a valid playing game stays valid |
| ShooterGame.Game.Animate | games/game3/main.js:146-166 | only a playing game updates; the object stays valid |
| ShooterGame.Game.RestartCounters | games/game3/main.js:794-798 | state, score, lives and level restart |
| ShooterGame.Game.ClearSky | games/game3/main.js:799-808 | the lists empty, the spawn interval restarts and every ability ends |
| ShooterGame.Game.ResetGame | games/game3/main.js:793-809 | the object becomes Reset of its snapshot and stays valid |
| ShooterGame.Game.HandleTouchStart | games/game3/main.js:92-120 | the touch is recorded; back button exits; the start screen starts play; the game-over screen resets |
| ShooterGame.Game.HandleTouchMove | games/game3/main.js:122-138 | while touching in play, the plane becomes Follow of the touch |
| ShooterGame.Game.HandleTouchEnd | games/game3/main.js:140-143 | the touch ends |
| ScoreUnlock.StoredScore | cloudfunctions/updateScore/index.js:37 | a missing stored score counts as 0 |
| ScoreUnlock.StartList | cloudfunctions/updateScore/index.js:44 | a missing unlocked list counts as [0] |
| ScoreUnlock.FreshMembers | cloudfunctions/updateScore/index.js:48-53 | an index is appended exactly when it is a game index not yet unlocked whose threshold the total reaches |
| ScoreUnlock.FreshAscending | cloudfunctions/updateScore/index.js:48-53 | new indices are appended in increasing order |
| ScoreUnlock.FreshEmpty | cloudfunctions/updateScore/index.js:48-53 | nothing is appended when every qualifying index is present |
| ScoreUnlock.UnlockedSpec | cloudfunctions/updateScore/index.js:41-53 | the list only grows and keeps its order; every game whose threshold is reached is unlocked; present indices are not appended again |
| ScoreUnlock.UnlockedDistinct | cloudfunctions/updateScore/index.js:48-53 | a duplicate-free list stays duplicate-free |
| ScoreUnlock.UnlockedIdempotent | cloudfunctions/updateScore/index.js:48-53 | unlocking again with the same total changes nothing |
| ScoreUnlock.UnlockedMonotone | cloudfunctions/updateScore/index.js:41-53 | a larger total unlocks at least the games a smaller one does |
| ScoreUnlock.UnlockGames | cloudfunctions/updateScore/index.js:44-53 | the loop, testing the growing list, yields Unlocked; `newUnlocks` holds exactly when something was appended |
| ScoreUnlock.UpdateScore | cloudfunctions/updateScore/index.js:9-92 | invalid score, failed query and missing user are refused with no write; on success, new total = previous + added, and every reached game is unlocked; a failed write after the update leaves the update in place |

## Left out

- Drawing is not modelled: every `render*` routine, `drawTile`, the star background and the colours.
- Platform plumbing is not modelled: event listeners, `requestAnimationFrame` scheduling, `getBoundingClientRect` and `preventDefault`. Touch handlers take canvas coordinates.
- The `onExit` and `onGameOver` callbacks and the teardown in `exitGame` are not modelled. A touch on the back button returns `exit = true` instead.
- Device storage of the best score is not modelled. The saved value is a constructor parameter, and the writes in `gameOver` and `update` are not modelled.
- `Math.random()` is replaced by draws passed as parameters. Probabilities are not modelled; only the choice a given draw makes is.
- Numbers are exact reals and unbounded integers. IEEE rounding, NaN and infinities are not modelled.
- Explosion particles (count, position, velocity, radius decay, colours) are not modelled. An explosion keeps only its particle count and its 30-frame life.
- Power-up and explosion positions are not modelled beyond the power-up's box.
- Shooter `update` receives `deltaTime` but does not use it. The model takes no frame time.
- The shooter's `touchX`/`touchY` are kept as fields. Only the plane-follow rule reads them.
- The `login` and `getRanking` cloud functions are not part of this model.
- `updateScore` database calls: the user query's result and the failing await are parameters. The server date and the error value in the `catch` branch are not modelled.
- `updateScore`: a stored score that is not a number is not modelled. JavaScript would concatenate it.
- `updateScore`: a stored unlocked list holding values that are not integers is not modelled.
- SnakeRules.Tick: requires the speed of a game in progress to lie in [10, 20], the range the invariant keeps. The move interval is tabulated for those speeds only.
- SnakeGame.Game.constructor: requires a canvas at least 120 × 20 px, so that the initial three-cell snake fits on the grid. The original assumes a phone-sized canvas.

## Notes on behaviour

- The 2048 code merges in cascade. A tile that has just merged can merge again with the next equal tile in the same sweep: `[2,2,4,0]` moved left gives `[8,0,0,0]` and scores 12 (TileRules.CascadeLine). The model follows the code.
- 2048's best score is updated by the frame loop only while playing. Points of the move that ends the game are therefore never recorded as best score: game over writes no best score, and a new game starts again from 0 (TileRules.FrameHighScore).
- The shooter's reset keeps `bulletCooldownTime`. A game reset during rapid fire keeps firing every 5 frames without the ability.
- The shooter's player-enemy pass does not recheck invincibility inside its loop. One frame can cost several lives (ShooterRules.SeveralLivesPerFrame).
