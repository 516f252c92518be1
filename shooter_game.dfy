/** The shooter game object of games/game3/main.js: its fields, updated in
    place by the frame update, the collision passes and the touch handlers.
    Every method is proved to move the object's snapshot exactly as the
    corresponding function of `ShooterRules` does, and the frame update to
    keep the invariant. */
module ShooterGame {
  import opened Common
  import opened ShooterRules

  class Game {
    const width: real
    const height: real

    var state: GameState
    var score: int
    var lives: int
    var level: int
    var player: Player
    var bullets: seq<Body>
    var bulletCooldown: int
    var bulletCooldownTime: int
    var enemies: seq<Body>
    var enemySpawnTime: int
    var enemySpawnCounter: int
    var powerups: seq<Powerup>
    var explosions: seq<Explosion>
    var touchX: real
    var touchY: real
    var isTouching: bool
    var lastTime: real

    /** The simulation fields as a value. */
    ghost function Snapshot(): Arena
      reads this
    {
      Arena(state, score, lives, level, player, bullets, bulletCooldown, bulletCooldownTime,
            enemies, enemySpawnTime, enemySpawnCounter, powerups, explosions, isTouching)
    }

    ghost predicate Valid()
      reads this
    {
      Inv(Snapshot())
    }

    /** The constructor and `init`: the start screen, the plane centred
        horizontally 100 pixels above the bottom, three lives, level one. */
    constructor (canvasWidth: real, canvasHeight: real)
      ensures Valid()
      ensures width == canvasWidth && height == canvasHeight
      ensures state == Start && score == 0 && lives == StartLives && level == 1
      ensures player.box == Rect(canvasWidth / 2.0, canvasHeight - 100.0, PlayerSize, PlayerSize)
      ensures !player.shield && !player.rapidFire && !player.invincible
      ensures bullets == [] && enemies == [] && powerups == [] && explosions == [] && !isTouching
      ensures bulletCooldown == 0 && bulletCooldownTime == NormalCooldown
      ensures enemySpawnTime == StartSpawnTime && enemySpawnCounter == 0
    {
      width := canvasWidth;
      height := canvasHeight;
      state := Start;
      score := 0;
      lives := StartLives;
      level := 1;
      player := Player(Rect(canvasWidth / 2.0, canvasHeight - 100.0, PlayerSize, PlayerSize),
                       false, 0, false, 0, false, 0);
      bullets := [];
      bulletCooldown := 0;
      bulletCooldownTime := NormalCooldown;
      enemies := [];
      enemySpawnTime := StartSpawnTime;
      enemySpawnCounter := 0;
      powerups := [];
      explosions := [];
      touchX := 0.0;
      touchY := 0.0;
      isTouching := false;
      lastTime := 0.0;
    }

    /** The shield block at the head of `update`. */
    method CountDownShield()
      modifies this`player
      ensures player == TickShield(old(player))
    {
      if player.shield && player.shieldTime > 0 {
        player := player.(shieldTime := player.shieldTime - 1);
        if player.shieldTime <= 0 {
          player := player.(shield := false);
        }
      }
    }

    /** The rapid-fire block at the head of `update`. */
    method CountDownRapidFire()
      modifies this`player, this`bulletCooldownTime
      ensures Snapshot() == TickRapidFire(old(Snapshot()))
    {
      if player.rapidFire && player.rapidFireTime > 0 {
        player := player.(rapidFireTime := player.rapidFireTime - 1);
        if player.rapidFireTime <= 0 {
          player := player.(rapidFire := false);
          bulletCooldownTime := NormalCooldown;
        }
      }
    }

    /** The invincibility block at the head of `update`. */
    method CountDownInvincible()
      modifies this`player
      ensures player == TickInvincible(old(player))
    {
      if player.invincible && player.invincibleTime > 0 {
        player := player.(invincibleTime := player.invincibleTime - 1);
        if player.invincibleTime <= 0 {
          player := player.(invincible := false);
        }
      }
    }

    /** The three timer blocks at the head of `update`. */
    method UpdateTimers()
      modifies this`player, this`bulletCooldownTime
      ensures Snapshot() == TickTimers(old(Snapshot()))
    {
      CountDownShield();
      CountDownRapidFire();
      CountDownInvincible();
    }

    /** `shootBullet`. */
    method ShootBullet()
      modifies this`bullets
      ensures bullets == old(bullets) + Shot(player)
    {
      var b := player.box;
      bullets := bullets + [Body(Rect(b.x + b.width / 2.0 - 5.0, b.y, 10.0, 20.0), BulletSpeed)];
      if player.rapidFire {
        bullets := bullets + [Body(Rect(b.x + 10.0, b.y + 10.0, 8.0, 16.0), BulletSpeed),
                              Body(Rect(b.x + b.width - 18.0, b.y + 10.0, 8.0, 16.0), BulletSpeed)];
      }
    }

    /** The cooldown block of `update`. */
    method FireIfReady()
      modifies this`bullets, this`bulletCooldown
      ensures Snapshot() == Fire(old(Snapshot()))
    {
      if bulletCooldown > 0 {
        bulletCooldown := bulletCooldown - 1;
      }
      if isTouching && bulletCooldown <= 0 {
        ShootBullet();
        bulletCooldown := bulletCooldownTime;
      }
    }

    /** `updateBullets`: the backward loop that moves each bullet up and
        splices out those that left the screen. */
    method UpdateBullets()
      modifies this`bullets
      ensures bullets == Survivors(old(bullets), Rise, Visible)
    {
      ghost var s := bullets;
      var i: nat := |bullets|;
      while i > 0
        invariant i <= |s|
        invariant bullets == s[..i] + Survivors(s[i..], Rise, Visible)
      {
        SweepStep(s, i, bullets, Rise, Visible);
        bullets := bullets[i - 1 := Rise(bullets[i - 1])];
        if bullets[i - 1].box.y + bullets[i - 1].box.height < 0.0 {
          bullets := bullets[..i - 1] + bullets[i..];
        }
        i := i - 1;
      }
      assert s[0..] == s;
    }

    /** `spawnEnemy`, with the three draws given; the colour is not modelled. */
    method SpawnEnemy(sizeRoll: real, speedRoll: real, xRoll: real)
      modifies this`enemies
      ensures enemies == old(enemies) + [NewEnemy(sizeRoll, speedRoll, xRoll, level, width)]
    {
      var size := sizeRoll * 30.0 + 30.0;
      var speed := speedRoll * 2.0 + 1.0 + (level as real) * 0.2;
      var enemy := Body(Rect(xRoll * (width - size), -size, size, size), speed);
      assert enemy == NewEnemy(sizeRoll, speedRoll, xRoll, level, width);
      enemies := enemies + [enemy];
    }

    /** The spawn counter block of `update`. */
    method CountToSpawn(sizeRoll: real, speedRoll: real, xRoll: real)
      modifies this`enemies, this`enemySpawnCounter
      ensures Snapshot() == SpawnStep(old(Snapshot()), sizeRoll, speedRoll, xRoll, width)
    {
      enemySpawnCounter := enemySpawnCounter + 1;
      if enemySpawnCounter >= enemySpawnTime {
        SpawnEnemy(sizeRoll, speedRoll, xRoll);
        enemySpawnCounter := 0;
      }
    }

    /** `gameOver`, without the host callback that receives the score. */
    method GameOver()
      modifies this`state
      ensures state == GameState.GameOver
    {
      state := GameState.GameOver;
    }

    /** What the enemy loop has done once the enemies from `i` on are
        handled: those are swept, and a life is gone if one of them escaped
        while the player was vulnerable at the start. */
    ghost predicate EnemiesSweptFrom(s: seq<Body>, a: Arena, i: nat)
      reads this
      requires i <= |s|
    {
      && enemies == s[..i] + Survivors(s[i..], Fall, Below(height))
      && var hurt := Escapes(s[i..], height) && !a.player.invincible;
      && lives == (if hurt then a.lives - 1 else a.lives)
      && player == (if hurt then a.player.(invincible := true, invincibleTime := HurtFrames) else a.player)
      && state == (if hurt && a.lives - 1 <= 0 then GameState.GameOver else a.state)
    }

    /** One iteration of the loop of `updateEnemies`. */
    method FallOne(i: nat, ghost s: seq<Body>, ghost a: Arena)
      requires 0 < i <= |s| && EnemiesSweptFrom(s, a, i)
      modifies this`enemies, this`lives, this`player, this`state
      ensures EnemiesSweptFrom(s, a, i - 1)
    {
      EscapesStep(s, i, height);
      SweepStep(s, i, enemies, Fall, Below(height));
      enemies := enemies[i - 1 := Fall(enemies[i - 1])];
      if enemies[i - 1].box.y > height {
        enemies := enemies[..i - 1] + enemies[i..];
        if !player.invincible {
          lives := lives - 1;
          player := player.(invincible := true, invincibleTime := HurtFrames);
          if lives <= 0 {
            GameOver();
          }
        }
      }
    }

    /** `updateEnemies`: the backward loop that moves each enemy down,
        splices out those below the screen and takes a life for them
        unless the player is invincible. */
    method UpdateEnemies()
      modifies this`enemies, this`lives, this`player, this`state
      ensures Snapshot() == Descend(old(Snapshot()), height)
    {
      ghost var s := enemies;
      ghost var a := Snapshot();
      var i: nat := |enemies|;
      while i > 0
        invariant i <= |s| && EnemiesSweptFrom(s, a, i)
      {
        FallOne(i, s, a);
        i := i - 1;
      }
      assert s[0..] == s;
    }

    /** `updatePowerups`: the backward loop that moves each power-up down and
        splices out those below the screen. */
    method UpdatePowerups()
      modifies this`powerups
      ensures powerups == Survivors(old(powerups), Drift, PowerupBelow(height))
    {
      ghost var s := powerups;
      var i: nat := |powerups|;
      while i > 0
        invariant i <= |s|
        invariant powerups == s[..i] + Survivors(s[i..], Drift, PowerupBelow(height))
      {
        SweepStep(s, i, powerups, Drift, PowerupBelow(height));
        powerups := powerups[i - 1 := Drift(powerups[i - 1])];
        if powerups[i - 1].body.box.y > height {
          powerups := powerups[..i - 1] + powerups[i..];
        }
        i := i - 1;
      }
      assert s[0..] == s;
    }

    /** `updateExplosions`: the backward loop that ages each explosion by a
        frame and splices out the spent ones; the particles are not
        modelled. */
    method UpdateExplosions()
      modifies this`explosions
      ensures explosions == Survivors(old(explosions), Fade, Burning)
    {
      ghost var s := explosions;
      var i: nat := |explosions|;
      while i > 0
        invariant i <= |s|
        invariant explosions == s[..i] + Survivors(s[i..], Fade, Burning)
      {
        SweepStep(s, i, explosions, Fade, Burning);
        explosions := explosions[i - 1 := explosions[i - 1].(life := explosions[i - 1].life - 1)];
        if explosions[i - 1].life <= 0 {
          explosions := explosions[..i - 1] + explosions[i..];
        }
        i := i - 1;
      }
      assert s[0..] == s;
    }

    /** `createExplosion` for an enemy of the given width; the particles
        and their position are not modelled. */
    method CreateExplosion(size: real)
      modifies this`explosions
      ensures explosions == old(explosions) + [Explosion((size / 2.0).Floor, ExplosionFrames)]
    {
      explosions := explosions + [Explosion((size / 2.0).Floor, ExplosionFrames)];
    }

    /** The selection loop of `spawnPowerup`, for a draw `roll`: the draw is
        scaled by the total weight and the weights are subtracted in turn. */
    method PickPowerup(roll: real) returns (kind: PowerKind)
      ensures kind == SelectKind(roll)
    {
      var total := Total(PowerupTypes);
      var random := roll * total;
      var selected: Option<PowerKind> := None;
      var k: nat := 0;
      while k < |PowerupTypes|
        invariant k <= |PowerupTypes|
        invariant selected.None? ==> Chosen(PowerupTypes[k..], random) == Chosen(PowerupTypes, roll * total)
        invariant selected.Some? ==> selected == Chosen(PowerupTypes, roll * total)
      {
        assert PowerupTypes[k..][1..] == PowerupTypes[k + 1..];
        random := random - PowerupTypes[k].1;
        if random <= 0.0 {
          selected := Some(PowerupTypes[k].0);
          break;
        }
        k := k + 1;
      }
      kind := if selected.None? then PowerupTypes[0].0 else selected.value;
    }

    /** `spawnPowerup` at (x, y). */
    method SpawnPowerup(x: real, y: real, roll: real)
      modifies this`powerups
      ensures powerups == old(powerups) + [Powerup(Body(Rect(x, y, PowerupSize, PowerupSize), PowerupSpeed), SelectKind(roll))]
    {
      var kind := PickPowerup(roll);
      powerups := powerups + [Powerup(Body(Rect(x, y, PowerupSize, PowerupSize), PowerupSpeed), kind)];
    }

    /** The inner loop of the bullet pass: the enemies are scanned from the
        back for one the box overlaps. */
    method FindTarget(box: Rect) returns (hit: Option<nat>)
      ensures hit == LastHit(box, enemies, |enemies|)
    {
      var j: nat := |enemies|;
      while j > 0
        invariant j <= |enemies|
        invariant LastHit(box, enemies, j) == LastHit(box, enemies, |enemies|)
      {
        if Collide(box, enemies[j - 1].box) {
          return Some(j - 1);
        }
        j := j - 1;
      }
      return None;
    }

    /** One iteration of the bullet pass, for bullet `i`; `drop` and `kind`
        stand for the draws of `Math.random()` made for that bullet. */
    method ShootOne(i: nat, drop: nat -> real, kind: nat -> real)
      requires i < |bullets|
      modifies this`bullets, this`enemies, this`explosions, this`score, this`powerups
      ensures Snapshot() == HitOne(old(Snapshot()), i, drop, kind)
    {
      var hit := FindTarget(bullets[i].box);
      if hit.Some? {
        Destroy(i, hit.value, drop, kind);
      }
    }

    /** Bullet `i` has hit enemy `j`: the body of the inner loop's `if`. */
    method Destroy(i: nat, j: nat, drop: nat -> real, kind: nat -> real)
      requires i < |bullets| && j < |enemies|
      modifies this`bullets, this`enemies, this`explosions, this`score, this`powerups
      ensures Snapshot() == Kill(old(Snapshot()), i, j, drop, kind)
    {
      var e := enemies[j].box;
      bullets := bullets[..i] + bullets[i + 1..];
      CreateExplosion(e.width);
      score := score + e.width.Floor;
      if drop(i) < DropChance {
        SpawnPowerup(CentreX(e), CentreY(e), kind(i));
      }
      enemies := enemies[..j] + enemies[j + 1..];
    }

    /** The first block of `checkCollisions`: the bullets, from the back. */
    method CheckBulletHits(drop: nat -> real, kind: nat -> real)
      modifies this`bullets, this`enemies, this`explosions, this`score, this`powerups
      ensures Snapshot() == ShootDown(old(Snapshot()), |old(bullets)|, drop, kind)
    {
      ghost var a := Snapshot();
      var i: nat := |bullets|;
      while i > 0
        invariant i <= |bullets|
        invariant ShootDown(Snapshot(), i, drop, kind) == ShootDown(a, |a.bullets|, drop, kind)
      {
        ShootOne(i - 1, drop, kind);
        i := i - 1;
      }
    }

    /** One iteration of the player-against-enemies loop, for enemy `i`;
        `stop` is the `break` after the last life. */
    method RamOne(i: nat) returns (stop: bool)
      requires i < |enemies|
      modifies this`enemies, this`explosions, this`player, this`lives, this`state
      ensures !Collide(old(player).box, old(enemies)[i].box) ==> Snapshot() == old(Snapshot()) && !stop
      ensures Collide(old(player).box, old(enemies)[i].box) ==>
                Snapshot() == Crash(old(Snapshot()), i) && (stop <==> !old(player).shield && lives <= 0)
    {
      if Collide(player.box, enemies[i].box) {
        CreateExplosion(enemies[i].box.width);
        enemies := enemies[..i] + enemies[i + 1..];
        if player.shield {
          player := player.(shield := false, shieldTime := 0);
        } else {
          stop := LoseLife();
          return;
        }
      }
      return false;
    }

    /** A life lost to an enemy: the player becomes invincible for a
        second, and the game ends with the last life; `stop` says so. */
    method LoseLife() returns (stop: bool)
      modifies this`player, this`lives, this`state
      ensures Snapshot() == Hurt(old(Snapshot())) && (stop <==> lives <= 0)
    {
      lives := lives - 1;
      player := player.(invincible := true, invincibleTime := HurtFrames);
      if lives <= 0 {
        GameOver();
        return true;
      }
      return false;
    }

    /** The second block of `checkCollisions`: the enemies against the
        player, from the back, unless the player is invincible. */
    method CheckPlayerHits()
      modifies this`enemies, this`explosions, this`player, this`lives, this`state
      ensures Snapshot() == PlayerPass(old(Snapshot()))
    {
      if player.invincible {
        return;
      }
      ghost var a := Snapshot();
      var i: nat := |enemies|;
      while i > 0
        invariant i <= |enemies|
        invariant Ram(Snapshot(), i) == Ram(a, |a.enemies|)
      {
        var stop := RamOne(i - 1);
        if stop {
          return;
        }
        i := i - 1;
      }
    }

    /** `applyPowerup`. */
    method ApplyPowerup(kind: PowerKind)
      modifies this`lives, this`player, this`bulletCooldownTime
      ensures Snapshot() == ShooterRules.ApplyPowerup(old(Snapshot()), kind)
    {
      match kind
      case Life =>
        lives := Min(lives + 1, MaxLives);
      case Shield =>
        player := player.(shield := true, shieldTime := PowerFrames);
      case RapidFire =>
        player := player.(rapidFire := true, rapidFireTime := PowerFrames);
        bulletCooldownTime := RapidCooldown;
    }

    /** The third block of `checkCollisions`: the power-ups against the
        player, from the back. */
    method CheckPowerupHits()
      modifies this`powerups, this`lives, this`player, this`bulletCooldownTime
      ensures Snapshot() == Collect(old(Snapshot()), |old(powerups)|)
    {
      ghost var a := Snapshot();
      var i: nat := |powerups|;
      while i > 0
        invariant i <= |powerups|
        invariant Collect(Snapshot(), i) == Collect(a, |a.powerups|)
      {
        if Collide(player.box, powerups[i - 1].body.box) {
          ghost var before := Snapshot();
          var kind := powerups[i - 1].kind;
          ApplyPowerup(kind);
          powerups := powerups[..i - 1] + powerups[i..];
          assert Snapshot() == ShooterRules.ApplyPowerup(before, kind).(powerups := Remove(before.powerups, i - 1));
        }
        i := i - 1;
      }
    }

    /** `checkCollisions`. */
    method CheckCollisions(drop: nat -> real, kind: nat -> real)
      modifies this`bullets, this`enemies, this`explosions, this`score, this`powerups,
               this`player, this`lives, this`state, this`bulletCooldownTime
      ensures Snapshot() == Collisions(old(Snapshot()), drop, kind)
    {
      CheckBulletHits(drop, kind);
      CheckPlayerHits();
      CheckPowerupHits();
    }

    /** The level check at the end of `update`. */
    method CheckLevel()
      modifies this`level, this`enemySpawnTime
      ensures Snapshot() == LevelUp(old(Snapshot()))
    {
      if score >= level * LevelThreshold {
        level := level + 1;
        enemySpawnTime := Max(MinSpawnTime, enemySpawnTime - SpawnTimeStep);
      }
    }

    /** The first part of `update`'s moving half: timers, firing, bullets
        and the spawn counter. */
    method MoveShots(rolls: Rolls)
      modifies this`player, this`bulletCooldownTime, this`bullets, this`bulletCooldown, this`enemies,
               this`enemySpawnCounter
      ensures var a1 := Fire(TickTimers(old(Snapshot())));
              Snapshot() == SpawnStep(a1.(bullets := Survivors(a1.bullets, Rise, Visible)),
                                      rolls.enemySize, rolls.enemySpeed, rolls.enemyX, width)
    {
      UpdateTimers();
      FireIfReady();
      UpdateBullets();
      CountToSpawn(rolls.enemySize, rolls.enemySpeed, rolls.enemyX);
    }

    /** The moving half of `update`. */
    method MoveAll(rolls: Rolls)
      modifies this`player, this`bulletCooldownTime, this`bullets, this`bulletCooldown, this`enemies,
               this`enemySpawnCounter, this`lives, this`state, this`powerups, this`explosions
      ensures Snapshot() == Advance(old(Snapshot()), width, height, rolls)
    {
      MoveShots(rolls);
      MoveFoes();
    }

    /** The second part of `update`'s moving half: enemies, power-ups and
        explosions. */
    method MoveFoes()
      modifies this`enemies, this`lives, this`state, this`player, this`powerups, this`explosions
      ensures var a4 := Descend(old(Snapshot()), height);
              var a5 := a4.(powerups := Survivors(a4.powerups, Drift, PowerupBelow(height)));
              Snapshot() == a5.(explosions := Survivors(a5.explosions, Fade, Burning))
    {
      UpdateEnemies();
      UpdatePowerups();
      UpdateExplosions();
    }

    /** `update`, with the frame's draws of `Math.random()` given as
        `rolls`; the frame time is not used by the original either. */
    method Update(rolls: Rolls)
      modifies this`player, this`bulletCooldownTime, this`bullets, this`bulletCooldown, this`enemies,
               this`enemySpawnCounter, this`lives, this`state, this`powerups, this`explosions,
               this`score, this`level, this`enemySpawnTime
      ensures Snapshot() == Step(old(Snapshot()), width, height, rolls)
      ensures old(Valid()) && old(state) == Playing && RollsInRange(rolls) ==> Valid()
    {
      ghost var a := Snapshot();
      MoveAll(rolls);
      CheckCollisions(rolls.drop, rolls.kind);
      CheckLevel();
      if Inv(a) && a.state == Playing && RollsInRange(rolls) {
        StepKeepsInv(a, width, height, rolls);
      }
    }

    /** `animate(timestamp)`: the frame update runs only while playing;
        drawing and the scheduling of the next frame are not modelled. */
    method Animate(timestamp: real, rolls: Rolls)
      requires Valid() && RollsInRange(rolls)
      modifies this`player, this`bulletCooldownTime, this`bullets, this`bulletCooldown, this`enemies,
               this`enemySpawnCounter, this`lives, this`state, this`powerups, this`explosions,
               this`score, this`level, this`enemySpawnTime, this`lastTime
      ensures Valid() && lastTime == timestamp
      ensures old(state) == Playing ==> Snapshot() == Step(old(Snapshot()), width, height, rolls)
      ensures old(state) != Playing ==> Snapshot() == old(Snapshot())
    {
      var deltaTime := timestamp - lastTime;
      lastTime := timestamp;
      if state == Playing {
        Update(rolls);
      }
    }

    /** The first half of `resetGame`: a fresh score, lives and level. */
    method RestartCounters()
      modifies this`state, this`score, this`lives, this`level
      ensures state == Playing && score == 0 && lives == StartLives && level == 1
    {
      state := Playing;
      score := 0;
      lives := StartLives;
      level := 1;
    }

    /** The second half of `resetGame`: an empty sky, the initial spawn
        interval and a plane without any ability. */
    method ClearSky()
      modifies this`enemies, this`bullets, this`powerups, this`explosions, this`enemySpawnTime, this`player
      ensures enemies == [] && bullets == [] && powerups == [] && explosions == []
      ensures enemySpawnTime == StartSpawnTime
      ensures player == old(player).(shield := false, shieldTime := 0, rapidFire := false, rapidFireTime := 0,
                                      invincible := false, invincibleTime := 0)
    {
      enemies := [];
      bullets := [];
      powerups := [];
      explosions := [];
      enemySpawnTime := StartSpawnTime;
      player := player.(shield := false, shieldTime := 0, rapidFire := false, rapidFireTime := 0,
                        invincible := false, invincibleTime := 0);
    }

    /** `resetGame`. */
    method ResetGame()
      requires Valid()
      modifies this`state, this`score, this`lives, this`level, this`enemies, this`bullets,
               this`powerups, this`explosions, this`enemySpawnTime, this`player
      ensures Valid() && Snapshot() == Reset(old(Snapshot()))
    {
      ghost var a := Snapshot();
      RestartCounters();
      ClearSky();
      assert Snapshot() == Reset(a);
      ResetSpec(a);
    }

    /** `handleTouchStart` at canvas point (x, y): the touch is recorded;
        the back button asks to exit, a touch on the start screen starts
        the game and one on the game-over screen starts a new one. */
    method HandleTouchStart(x: real, y: real) returns (exit: bool)
      requires Valid()
      modifies this
      ensures Valid() && touchX == x && touchY == y && isTouching && lastTime == old(lastTime)
      ensures exit <==> PointInRect(x, y, BackButton)
      ensures exit || old(state) == Playing ==> Snapshot() == old(Snapshot()).(isTouching := true)
      ensures !exit && old(state) == Start ==> Snapshot() == old(Snapshot()).(isTouching := true, state := Playing)
      ensures !exit && old(state) == GameState.GameOver ==> Snapshot() == Reset(old(Snapshot()).(isTouching := true))
    {
      touchX := x;
      touchY := y;
      isTouching := true;
      if PointInRect(x, y, BackButton) {
        return true;
      }
      if state == Start {
        state := Playing;
        return false;
      }
      if state == GameState.GameOver {
        ResetGame();
        return false;
      }
      return false;
    }

    /** `handleTouchMove`: while the finger is down during play, the plane
        follows it within the canvas. */
    method HandleTouchMove(x: real, y: real)
      requires Valid()
      modifies this`touchX, this`touchY, this`player
      ensures Valid()
      ensures !(old(isTouching) && old(state) == Playing) ==>
                Snapshot() == old(Snapshot()) && touchX == old(touchX) && touchY == old(touchY)
      ensures old(isTouching) && old(state) == Playing ==>
                Snapshot() == old(Snapshot()).(player := Follow(old(player), x, y, width, height))
                && touchX == x && touchY == y
    {
      if !isTouching || state != Playing {
        return;
      }
      touchX := x;
      touchY := y;
      player := player.(box := player.box.(x := touchX - player.box.width / 2.0,
                                           y := touchY - player.box.height / 2.0));
      player := player.(box := player.box.(x := MaxReal(0.0, MinReal(width - player.box.width, player.box.x))));
      player := player.(box := player.box.(y := MaxReal(0.0, MinReal(height - player.box.height, player.box.y))));
    }

    /** `handleTouchEnd`. */
    method HandleTouchEnd()
      modifies this`isTouching
      ensures Snapshot() == old(Snapshot()).(isTouching := false)
    {
      isTouching := false;
    }
  }
}
