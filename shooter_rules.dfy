/** The rules of the vertical shooter (games/game3/main.js) as functions on a
    snapshot of the game object: the per-frame timers, firing, the lists
    updated by backward loops that splice out what left the screen, enemy
    spawning, the three collision passes, power-ups and levels, with the
    invariants they keep. Positions and sizes are exact reals. */
module ShooterRules {
  import opened Common

  /** A bullet, an enemy or the body of a power-up: its box on the canvas
      and the distance it travels per frame. */
  datatype Body = Body(box: Rect, speed: real)

  /** The `type` strings 'life', 'shield' and 'rapidFire'. */
  datatype PowerKind = Life | Shield | RapidFire

  datatype Powerup = Powerup(body: Body, kind: PowerKind)

  /** An explosion: how many particles it was created with and the frames
      it has left. The particles themselves are not modelled. */
  datatype Explosion = Explosion(particles: int, life: int)

  /** The `player` object: its box, and the three timed abilities. */
  datatype Player = Player(
    box: Rect,
    shield: bool,
    shieldTime: int,
    rapidFire: bool,
    rapidFireTime: int,
    invincible: bool,
    invincibleTime: int)

  /** The snapshot of the game object's simulation fields. */
  datatype Arena = Arena(
    state: GameState,
    score: int,
    lives: int,
    level: int,
    player: Player,
    bullets: seq<Body>,
    bulletCooldown: int,
    bulletCooldownTime: int,
    enemies: seq<Body>,
    enemySpawnTime: int,
    enemySpawnCounter: int,
    powerups: seq<Powerup>,
    explosions: seq<Explosion>,
    isTouching: bool)

  const StartLives: int := 3
  const MaxLives: int := 5
  /** Points per level: level `n` ends at `n * 1000` points. */
  const LevelThreshold: int := 1000
  /** Frames between two shots, normally and under rapid fire. */
  const NormalCooldown: int := 15
  const RapidCooldown: int := 5
  const BulletSpeed: real := 10.0
  const StartSpawnTime: int := 60
  const MinSpawnTime: int := 10
  const SpawnTimeStep: int := 5
  /** Frames of invincibility after a lost life. */
  const HurtFrames: int := 60
  /** Frames a shield or rapid fire lasts. */
  const PowerFrames: int := 300
  const ExplosionFrames: int := 30
  /** Probability that a destroyed enemy drops a power-up. */
  const DropChance: real := 0.05
  const PowerupSize: real := 30.0
  const PowerupSpeed: real := 2.0
  const PlayerSize: real := 60.0

  /** `powerupTypes`: each kind with its weight in the draw. */
  const PowerupTypes: seq<(PowerKind, real)> := [(Life, 0.2), (Shield, 0.4), (RapidFire, 0.4)]

  // ---------------------------------------------------------------------
  // Collisions (isCollision)
  // ---------------------------------------------------------------------

  /** `isCollision`: the boxes overlap; touching edges do not count. */
  predicate Collide(a: Rect, b: Rect)
  {
    a.x < b.x + b.width && a.x + a.width > b.x && a.y < b.y + b.height && a.y + a.height > b.y
  }

  predicate StrictlyInside(px: real, py: real, r: Rect)
  {
    r.x < px < r.x + r.width && r.y < py < r.y + r.height
  }

  /** A box with an area; every box in the game has one. */
  predicate Solid(r: Rect)
  {
    r.width > 0.0 && r.height > 0.0
  }

  /** Two boxes with an area collide exactly when some point lies strictly
      inside both; in particular the test does not depend on the order of
      its arguments. */
  lemma CollideIsOverlap(a: Rect, b: Rect)
    requires Solid(a) && Solid(b)
    ensures Collide(a, b) <==> Collide(b, a)
    ensures Collide(a, b) <==> exists px, py :: StrictlyInside(px, py, a) && StrictlyInside(px, py, b)
  {
    if Collide(a, b) {
      var px := (MaxReal(a.x, b.x) + MinReal(a.x + a.width, b.x + b.width)) / 2.0;
      var py := (MaxReal(a.y, b.y) + MinReal(a.y + a.height, b.y + b.height)) / 2.0;
      assert StrictlyInside(px, py, a) && StrictlyInside(px, py, b);
    }
  }

  /** The centre of a box, where explosions and power-ups appear. */
  function CentreX(r: Rect): real { r.x + r.width / 2.0 }
  function CentreY(r: Rect): real { r.y + r.height / 2.0 }

  // ---------------------------------------------------------------------
  // Timers
  // ---------------------------------------------------------------------

  /** The timer invariant: each ability is on exactly while its timer is
      positive, and no timer exceeds the value it is set to. */
  predicate TimersConsistent(p: Player)
  {
    && 0 <= p.shieldTime <= PowerFrames && (p.shield <==> p.shieldTime > 0)
    && 0 <= p.rapidFireTime <= PowerFrames && (p.rapidFire <==> p.rapidFireTime > 0)
    && 0 <= p.invincibleTime <= HurtFrames && (p.invincible <==> p.invincibleTime > 0)
  }

  /** The shield block at the start of `update`: an active shield timer
      drops by one, and the shield ends when it reaches zero. */
  function TickShield(p: Player): Player
  {
    if p.shield && p.shieldTime > 0 then
      var t := p.shieldTime - 1;
      p.(shieldTime := t, shield := if t <= 0 then false else p.shield)
    else p
  }

  /** The rapid-fire block: the same, and the end of rapid fire restores
      the normal firing interval. */
  function TickRapidFire(a: Arena): Arena
  {
    var p := a.player;
    if p.rapidFire && p.rapidFireTime > 0 then
      var t := p.rapidFireTime - 1;
      if t <= 0 then
        a.(player := p.(rapidFireTime := t, rapidFire := false), bulletCooldownTime := NormalCooldown)
      else
        a.(player := p.(rapidFireTime := t))
    else a
  }

  /** The invincibility block. */
  function TickInvincible(p: Player): Player
  {
    if p.invincible && p.invincibleTime > 0 then
      var t := p.invincibleTime - 1;
      p.(invincibleTime := t, invincible := if t <= 0 then false else p.invincible)
    else p
  }

  /** The three timer blocks at the start of `update`, in order. */
  function TickTimers(a: Arena): Arena
  {
    var a1 := TickRapidFire(a.(player := TickShield(a.player)));
    a1.(player := TickInvincible(a1.player))
  }

  /** Each active timer drops by exactly one and its flag is cleared exactly
      when it reaches zero; inactive timers, the box and everything else
      stay. */
  lemma TickTimersSpec(a: Arena)
    ensures var r := TickTimers(a);
      && r == a.(player := r.player, bulletCooldownTime := r.bulletCooldownTime)
      && r.player.box == a.player.box
      && (if a.player.shield && a.player.shieldTime > 0
          then r.player.shieldTime == a.player.shieldTime - 1 && (r.player.shield <==> r.player.shieldTime > 0)
          else r.player.shieldTime == a.player.shieldTime && r.player.shield == a.player.shield)
      && (if a.player.rapidFire && a.player.rapidFireTime > 0
          then r.player.rapidFireTime == a.player.rapidFireTime - 1 && (r.player.rapidFire <==> r.player.rapidFireTime > 0)
          else r.player.rapidFireTime == a.player.rapidFireTime && r.player.rapidFire == a.player.rapidFire)
      && (if a.player.invincible && a.player.invincibleTime > 0
          then r.player.invincibleTime == a.player.invincibleTime - 1 && (r.player.invincible <==> r.player.invincibleTime > 0)
          else r.player.invincibleTime == a.player.invincibleTime && r.player.invincible == a.player.invincible)
      && r.bulletCooldownTime == (if a.player.rapidFire && a.player.rapidFireTime == 1 then NormalCooldown else a.bulletCooldownTime)
  {
  }

  /** The timers keep their invariant, and an expired rapid fire leaves the
      normal firing interval. */
  lemma TickTimersConsistent(a: Arena)
    requires TimersConsistent(a.player)
    ensures TimersConsistent(TickTimers(a).player)
    ensures !TickTimers(a).player.rapidFire && a.player.rapidFire ==> TickTimers(a).bulletCooldownTime == NormalCooldown
  {
  }

  // ---------------------------------------------------------------------
  // Firing (the cooldown block of update and shootBullet)
  // ---------------------------------------------------------------------

  /** `shootBullet`: the main bullet from the nose of the plane, and under
      rapid fire two side bullets after it. */
  function Shot(p: Player): (r: seq<Body>)
    ensures |r| == if p.rapidFire then 3 else 1
    ensures forall i :: 0 <= i < |r| ==> r[i].speed == BulletSpeed
  {
    var b := p.box;
    var main := Body(Rect(b.x + b.width / 2.0 - 5.0, b.y, 10.0, 20.0), BulletSpeed);
    if p.rapidFire then
      [main,
       Body(Rect(b.x + 10.0, b.y + 10.0, 8.0, 16.0), BulletSpeed),
       Body(Rect(b.x + b.width - 18.0, b.y + 10.0, 8.0, 16.0), BulletSpeed)]
    else [main]
  }

  /** The cooldown counts down; a touching player whose cooldown is over
      fires and the cooldown restarts from `bulletCooldownTime`. */
  function Fire(a: Arena): Arena
  {
    var c := if a.bulletCooldown > 0 then a.bulletCooldown - 1 else a.bulletCooldown;
    if a.isTouching && c <= 0 then
      a.(bullets := a.bullets + Shot(a.player), bulletCooldown := a.bulletCooldownTime)
    else
      a.(bulletCooldown := c)
  }

  /** A shot happens exactly when the player touches the screen and the
      cooldown has run out; it appends one bullet, or three under rapid
      fire, after the bullets already flying. */
  lemma FireSpec(a: Arena)
    ensures var r := Fire(a);
      var shoots := a.isTouching && a.bulletCooldown <= 1;
      && r == a.(bullets := r.bullets, bulletCooldown := r.bulletCooldown)
      && r.bullets[..|a.bullets|] == a.bullets
      && |r.bullets| == |a.bullets| + (if !shoots then 0 else if a.player.rapidFire then 3 else 1)
      && (shoots ==> r.bulletCooldown == a.bulletCooldownTime)
      && (!shoots && a.bulletCooldown > 0 ==> r.bulletCooldown == a.bulletCooldown - 1)
      && (!shoots && a.bulletCooldown <= 0 ==> r.bulletCooldown == a.bulletCooldown)
  {
    var r := Fire(a);
    assert r.bullets[..|a.bullets|] == a.bullets;
  }

  // ---------------------------------------------------------------------
  // The backward sweeps (updateBullets, updatePowerups, updateExplosions)
  // ---------------------------------------------------------------------

  /** What a backward sweep leaves: every element is advanced by `f`, and
      those for which `keep` fails afterwards are spliced out; the
      survivors keep their order. */
  function Survivors<T>(s: seq<T>, f: T -> T, keep: T -> bool): (r: seq<T>)
    ensures |r| <= |s|
  {
    if s == [] then []
    else (if keep(f(s[0])) then [f(s[0])] else []) + Survivors(s[1..], f, keep)
  }

  /** The survivors are exactly the advanced elements that pass `keep`. */
  lemma {:induction false} SurvivorsMembers<T>(s: seq<T>, f: T -> T, keep: T -> bool, x: T)
    ensures x in Survivors(s, f, keep) <==> exists i :: 0 <= i < |s| && x == f(s[i]) && keep(x)
  {
    if s != [] {
      SurvivorsMembers(s[1..], f, keep, x);
      if exists i :: 0 <= i < |s| && x == f(s[i]) && keep(x) {
        var i :| 0 <= i < |s| && x == f(s[i]) && keep(x);
        if i > 0 {
          assert s[1..][i - 1] == s[i];
        }
      }
      if exists i :: 0 <= i < |s[1..]| && x == f(s[1..][i]) && keep(x) {
        var i :| 0 <= i < |s[1..]| && x == f(s[1..][i]) && keep(x);
        assert s[i + 1] == s[1..][i];
      }
    }
  }

  /** Sweeping two lists one after the other is sweeping their
      concatenation: the relative order of the survivors is kept. */
  lemma {:induction false} SurvivorsAppend<T>(a: seq<T>, b: seq<T>, f: T -> T, keep: T -> bool)
    ensures Survivors(a + b, f, keep) == Survivors(a, f, keep) + Survivors(b, f, keep)
  {
    if a != [] {
      assert (a + b)[1..] == a[1..] + b;
      SurvivorsAppend(a[1..], b, f, keep);
    } else {
      assert a + b == b;
    }
  }

  /** Nothing is removed exactly when every advanced element passes `keep`. */
  lemma {:induction false} SurvivorsKeepAll<T>(s: seq<T>, f: T -> T, keep: T -> bool)
    ensures |Survivors(s, f, keep)| == |s| <==> forall i :: 0 <= i < |s| ==> keep(f(s[i]))
  {
    if s != [] {
      SurvivorsKeepAll(s[1..], f, keep);
      if forall i :: 0 <= i < |s[1..]| ==> keep(f(s[1..][i])) {
        forall i | 0 < i < |s|
          ensures keep(f(s[i]))
        {
          assert s[i] == s[1..][i - 1];
        }
      }
      if forall i :: 0 <= i < |s| ==> keep(f(s[i])) {
        forall i | 0 <= i < |s[1..]|
          ensures keep(f(s[1..][i]))
        {
          assert s[1..][i] == s[i + 1];
        }
      }
    }
  }

  /** One step of the sweep from the back: element `i - 1` is advanced and
      kept or spliced out in front of the survivors already computed. */
  lemma SurvivorsStep<T>(s: seq<T>, i: nat, f: T -> T, keep: T -> bool)
    requires 0 < i <= |s|
    ensures Survivors(s[i - 1..], f, keep)
            == (if keep(f(s[i - 1])) then [f(s[i - 1])] else []) + Survivors(s[i..], f, keep)
  {
    assert s[i - 1..][1..] == s[i..];
  }

  /** One iteration of a backward sweep on the list itself: element
      `i - 1` is advanced in place and spliced out if `keep` fails. When
      the elements from `i` on are already swept, so are those from
      `i - 1` on. */
  lemma SweepStep<T>(s: seq<T>, i: nat, cur: seq<T>, f: T -> T, keep: T -> bool)
    requires 0 < i <= |s| && cur == s[..i] + Survivors(s[i..], f, keep)
    ensures var moved := cur[i - 1 := f(cur[i - 1])];
      (if keep(moved[i - 1]) then moved else moved[..i - 1] + moved[i..])
        == s[..i - 1] + Survivors(s[i - 1..], f, keep)
  {
    SurvivorsStep(s, i, f, keep);
    var moved := cur[i - 1 := f(cur[i - 1])];
    assert cur[i - 1] == s[i - 1];
    assert moved[..i - 1] == s[..i - 1];
    assert moved[i..] == Survivors(s[i..], f, keep);
    if keep(moved[i - 1]) {
      assert moved == s[..i - 1] + [f(s[i - 1])] + Survivors(s[i..], f, keep);
    }
  }

  /** A bullet rises by its speed each frame ... */
  function Rise(b: Body): Body
  {
    b.(box := b.box.(y := b.box.y - b.speed))
  }

  /** ... and is removed once its bottom edge is above the top of the screen. */
  predicate Visible(b: Body)
  {
    !(b.box.y + b.box.height < 0.0)
  }

  /** Enemies and power-ups fall by their speed each frame ... */
  function Fall(b: Body): Body
  {
    b.(box := b.box.(y := b.box.y + b.speed))
  }

  function Drift(p: Powerup): Powerup
  {
    p.(body := Fall(p.body))
  }

  /** ... and leave once their top edge is below the bottom of the screen. */
  function Below(height: real): Body -> bool
  {
    (b: Body) => !(b.box.y > height)
  }

  function PowerupBelow(height: real): Powerup -> bool
  {
    (p: Powerup) => !(p.body.box.y > height)
  }

  /** An explosion loses one frame of life and is removed at zero. */
  function Fade(e: Explosion): Explosion
  {
    e.(life := e.life - 1)
  }

  predicate Burning(e: Explosion)
  {
    !(e.life <= 0)
  }

  // ---------------------------------------------------------------------
  // Enemies (spawnEnemy, updateEnemies)
  // ---------------------------------------------------------------------

  /** `spawnEnemy`: a square enemy of side 30 to 60 just above the top edge,
      at a random column, falling at 1 to 3 pixels per frame plus a fifth
      of a pixel per level. The three draws are `Math.random()` in [0, 1);
      the random colour is not modelled. */
  function NewEnemy(sizeRoll: real, speedRoll: real, xRoll: real, level: int, width: real): Body
  {
    var size := sizeRoll * 30.0 + 30.0;
    Body(Rect(xRoll * (width - size), -size, size, size), speedRoll * 2.0 + 1.0 + (level as real) * 0.2)
  }

  /** The size of an enemy lies in [30, 60); it starts with its bottom edge
      on the top of the screen, within the screen horizontally when the
      screen is wide enough, and its speed grows with the level. */
  lemma NewEnemyBounds(sizeRoll: real, speedRoll: real, xRoll: real, level: int, width: real)
    requires 0.0 <= sizeRoll < 1.0 && 0.0 <= speedRoll < 1.0 && 0.0 <= xRoll < 1.0
    ensures var e := NewEnemy(sizeRoll, speedRoll, xRoll, level, width);
      && EnemySized(e)
      && e.box.y + e.box.height == 0.0
      && (width >= e.box.width ==> 0.0 <= e.box.x && e.box.x + e.box.width <= width)
      && 1.0 + (level as real) * 0.2 <= e.speed < 3.0 + (level as real) * 0.2
  {
    var size := sizeRoll * 30.0 + 30.0;
    Scale(sizeRoll, 30.0);
    Scale(speedRoll, 2.0);
    if width >= size {
      Place(xRoll, width, size);
    }
  }

  /** A draw in [0, 1) places a box of side `size` within [0, width]. */
  lemma Place(roll: real, width: real, size: real)
    requires 0.0 <= roll < 1.0 && size <= width
    ensures 0.0 <= roll * (width - size) && roll * (width - size) + size <= width
  {
    if width > size {
      ProductSigns(roll, width - size);
      ProductSigns(1.0 - roll, width - size);
      assert (1.0 - roll) * (width - size) == (width - size) - roll * (width - size);
    }
  }

  /** A draw in [0, 1) scales a length `m` to somewhere in [0, m]. */
  lemma Scale(roll: real, m: real)
    requires 0.0 <= roll < 1.0 && m >= 0.0
    ensures 0.0 <= roll * m <= m
    ensures m > 0.0 ==> roll * m < m
  {
    assert (1.0 - roll) * m >= 0.0;
  }

  /** Every enemy is a square with a side in [30, 60). */
  predicate EnemySized(e: Body)
  {
    30.0 <= e.box.width < 60.0 && e.box.height == e.box.width
  }

  /** The spawn counter of `update`: one more frame, and when it reaches
      `enemySpawnTime` an enemy is added and the counter restarts. */
  function SpawnStep(a: Arena, sizeRoll: real, speedRoll: real, xRoll: real, width: real): Arena
  {
    var c := a.enemySpawnCounter + 1;
    if c >= a.enemySpawnTime then
      a.(enemies := a.enemies + [NewEnemy(sizeRoll, speedRoll, xRoll, a.level, width)], enemySpawnCounter := 0)
    else
      a.(enemySpawnCounter := c)
  }

  /** Exactly one enemy appears on the frame the counter reaches the spawn
      interval, none on the others; the counter then lies below the
      interval. The counter may already be past the interval: a level-up
      lowers the interval after the counter has been advanced, and the
      next frame then spawns at once. */
  lemma SpawnStepSpec(a: Arena, sizeRoll: real, speedRoll: real, xRoll: real, width: real)
    requires -1 <= a.enemySpawnCounter && 0 < a.enemySpawnTime
    ensures var r := SpawnStep(a, sizeRoll, speedRoll, xRoll, width);
      && r == a.(enemies := r.enemies, enemySpawnCounter := r.enemySpawnCounter)
      && r.enemies[..|a.enemies|] == a.enemies
      && (|r.enemies| == |a.enemies| + 1 <==> a.enemySpawnCounter + 1 >= a.enemySpawnTime)
      && (|r.enemies| == |a.enemies| <==> a.enemySpawnCounter + 1 < a.enemySpawnTime)
      && (|r.enemies| == |a.enemies| + 1 ==> r.enemies[|a.enemies|] == NewEnemy(sizeRoll, speedRoll, xRoll, a.level, width))
      && 0 <= r.enemySpawnCounter < a.enemySpawnTime
  {
    var r := SpawnStep(a, sizeRoll, speedRoll, xRoll, width);
    assert r.enemies[..|a.enemies|] == a.enemies;
  }

  /** Losing a life: the player becomes invincible for a second, and the
      game ends when no life is left. */
  function Hurt(a: Arena): Arena
  {
    var lives := a.lives - 1;
    a.(lives := lives,
       player := a.player.(invincible := true, invincibleTime := HurtFrames),
       state := if lives <= 0 then GameOver else a.state)
  }

  /** Some enemy of the list leaves the screen at the bottom this frame. */
  predicate Escapes(enemies: seq<Body>, height: real)
  {
    exists i :: 0 <= i < |enemies| && Fall(enemies[i]).box.y > height
  }

  /** Scanning from the back: the enemies from `i - 1` on escape when enemy
      `i - 1` does or one after it does. */
  lemma EscapesStep(enemies: seq<Body>, i: nat, height: real)
    requires 0 < i <= |enemies|
    ensures Escapes(enemies[i - 1..], height) <==> Fall(enemies[i - 1]).box.y > height || Escapes(enemies[i..], height)
  {
    var t := enemies[i - 1..];
    if Escapes(enemies[i..], height) {
      var k :| 0 <= k < |enemies[i..]| && Fall(enemies[i..][k]).box.y > height;
      assert t[k + 1] == enemies[i..][k];
    }
    if Escapes(t, height) {
      var k :| 0 <= k < |t| && Fall(t[k]).box.y > height;
      if k > 0 {
        assert t[k] == enemies[i..][k - 1];
      }
    }
    assert t[0] == enemies[i - 1];
  }

  /** `updateEnemies`: the enemies fall, those below the screen are removed,
      and if one escaped while the player was not invincible, one life is
      lost; the invincibility it grants spares the player the others. */
  function Descend(a: Arena, height: real): Arena
  {
    var a1 := a.(enemies := Survivors(a.enemies, Fall, Below(height)));
    if Escapes(a.enemies, height) && !a.player.invincible then Hurt(a1) else a1
  }

  /** At most one life is lost per frame to escaping enemies, exactly when
      one escapes and the player is vulnerable; the enemies left are those
      still on screen. */
  lemma DescendSpec(a: Arena, height: real)
    ensures var r := Descend(a, height);
      && (forall e :: e in r.enemies <==> exists i :: 0 <= i < |a.enemies| && e == Fall(a.enemies[i]) && e.box.y <= height)
      && (r.lives == a.lives - 1 <==> Escapes(a.enemies, height) && !a.player.invincible)
      && (r.lives == a.lives <==> !(Escapes(a.enemies, height) && !a.player.invincible))
      && (r.lives < a.lives ==> r.player.invincible && r.player.invincibleTime == HurtFrames)
      && (r.state == GameOver <==> a.state == GameOver || (r.lives < a.lives && r.lives <= 0))
  {
    var r := Descend(a, height);
    forall e
      ensures e in r.enemies <==> exists i :: 0 <= i < |a.enemies| && e == Fall(a.enemies[i]) && e.box.y <= height
    {
      SurvivorsMembers(a.enemies, Fall, Below(height), e);
    }
  }

  // ---------------------------------------------------------------------
  // Collisions (checkCollisions)
  // ---------------------------------------------------------------------

  function Remove<T>(s: seq<T>, i: nat): (r: seq<T>)
    requires i < |s|
    ensures |r| == |s| - 1
    ensures forall k :: 0 <= k < i ==> r[k] == s[k]
    ensures forall k :: i <= k < |r| ==> r[k] == s[k + 1]
  {
    s[..i] + s[i + 1..]
  }

  /** The inner loop over enemies: the enemy with the highest index among the
      first `j` that the box collides with. */
  function LastHit(box: Rect, enemies: seq<Body>, j: nat): (r: Option<nat>)
    requires j <= |enemies|
    ensures r.Some? ==> r.value < j && Collide(box, enemies[r.value].box)
    ensures r.Some? ==> forall k :: r.value < k < j ==> !Collide(box, enemies[k].box)
    ensures r.None? <==> forall k :: 0 <= k < j ==> !Collide(box, enemies[k].box)
  {
    if j == 0 then None
    else if Collide(box, enemies[j - 1].box) then Some(j - 1)
    else LastHit(box, enemies, j - 1)
  }

  /** `createExplosion` for an enemy of the given box: half its width in
      particles (rounded down), thirty frames of life. */
  function Blast(r: Rect): Explosion
  {
    Explosion((r.width / 2.0).Floor, ExplosionFrames)
  }

  /** `spawnPowerup` at the centre of a destroyed enemy. */
  function PowerupAt(r: Rect, kind: PowerKind): Powerup
  {
    Powerup(Body(Rect(CentreX(r), CentreY(r), PowerupSize, PowerupSize), PowerupSpeed), kind)
  }

  /** The draws of one frame: three for a new enemy, and for the bullet at
      index `i` that destroys an enemy, `drop(i)` decides whether a power-up
      is dropped and `kind(i)` which one. */
  datatype Rolls = Rolls(enemySize: real, enemySpeed: real, enemyX: real, drop: nat -> real, kind: nat -> real)

  /** Every draw is a `Math.random()` value in [0, 1). */
  ghost predicate RollsInRange(r: Rolls)
  {
    && 0.0 <= r.enemySize < 1.0 && 0.0 <= r.enemySpeed < 1.0 && 0.0 <= r.enemyX < 1.0
    && (forall n: nat :: 0.0 <= r.drop(n) < 1.0)
    && (forall n: nat :: 0.0 <= r.kind(n) < 1.0)
  }

  /** Bullet `i` destroys enemy `j`: both are removed, an explosion
      appears, the enemy's width rounded down is scored, and if the drop
      draw is below 5% a power-up appears where the enemy was. */
  function Kill(a: Arena, i: nat, j: nat, drop: nat -> real, kind: nat -> real): (r: Arena)
    requires i < |a.bullets| && j < |a.enemies|
    ensures r == a.(bullets := r.bullets, enemies := r.enemies, explosions := r.explosions,
                    score := r.score, powerups := r.powerups)
    ensures r.bullets == Remove(a.bullets, i) && r.enemies == Remove(a.enemies, j)
    ensures r.explosions == a.explosions + [Blast(a.enemies[j].box)]
    ensures r.score == a.score + a.enemies[j].box.width.Floor
    ensures |r.powerups| == |a.powerups| + (if drop(i) < DropChance then 1 else 0)
    ensures r.powerups[..|a.powerups|] == a.powerups
  {
    var e := a.enemies[j].box;
    var r := a.(bullets := Remove(a.bullets, i),
                explosions := a.explosions + [Blast(e)],
                score := a.score + e.width.Floor,
                powerups := if drop(i) < DropChance then a.powerups + [PowerupAt(e, SelectKind(kind(i)))] else a.powerups,
                enemies := Remove(a.enemies, j));
    assert r.powerups[..|a.powerups|] == a.powerups;
    r
  }

  /** One iteration of the bullet loop: bullet `i` destroys the last enemy
      it overlaps, if any. */
  function HitOne(a: Arena, i: nat, drop: nat -> real, kind: nat -> real): (r: Arena)
    requires i < |a.bullets|
    ensures r == a.(bullets := r.bullets, enemies := r.enemies, explosions := r.explosions,
                    score := r.score, powerups := r.powerups)
    ensures |a.bullets| - |r.bullets| == |a.enemies| - |r.enemies| == |r.explosions| - |a.explosions|
    ensures |a.bullets| - |r.bullets| <= 1 && 0 <= |r.powerups| - |a.powerups| <= |a.bullets| - |r.bullets|
    ensures r.bullets[..i] == a.bullets[..i]
  {
    match LastHit(a.bullets[i].box, a.enemies, |a.enemies|)
    case None => a
    case Some(j) =>
      var r := Kill(a, i, j, drop, kind);
      assert r.bullets[..i] == a.bullets[..i];
      r
  }

  /** The outer loop over bullets, from index `i - 1` down to 0. */
  function ShootDown(a: Arena, i: nat, drop: nat -> real, kind: nat -> real): Arena
    requires i <= |a.bullets|
    decreases i
  {
    if i == 0 then a
    else ShootDown(HitOne(a, i - 1, drop, kind), i - 1, drop, kind)
  }

  /** Every enemy on the list has its spawn size. */
  predicate EnemiesSized(enemies: seq<Body>)
  {
    forall k :: 0 <= k < |enemies| ==> EnemySized(enemies[k])
  }

  lemma RemoveSized(enemies: seq<Body>, j: nat)
    requires j < |enemies| && EnemiesSized(enemies)
    ensures EnemiesSized(Remove(enemies, j))
  {
  }

  /** An enemy of spawn size is worth between 30 and 59 points. */
  lemma KillScore(e: Body)
    requires EnemySized(e)
    ensures 30 <= e.box.width.Floor <= 59
  {
  }

  /** The bullet pass destroys as many enemies as bullets it consumes, with
      one explosion each, drops at most one power-up per kill, scores
      between 30 and 59 points per kill, and touches nothing else. */
  lemma {:induction false} ShootDownCounts(a: Arena, i: nat, drop: nat -> real, kind: nat -> real)
    requires i <= |a.bullets| && EnemiesSized(a.enemies)
    ensures var r := ShootDown(a, i, drop, kind);
      var kills := |a.bullets| - |r.bullets|;
      && r == a.(bullets := r.bullets, enemies := r.enemies, explosions := r.explosions,
                 score := r.score, powerups := r.powerups)
      && EnemiesSized(r.enemies)
      && 0 <= kills <= i
      && |a.enemies| - |r.enemies| == kills && |r.explosions| - |a.explosions| == kills
      && 0 <= |r.powerups| - |a.powerups| <= kills
      && 30 * kills <= r.score - a.score <= 59 * kills
    decreases i
  {
    if i > 0 {
      var b := HitOne(a, i - 1, drop, kind);
      var hit := LastHit(a.bullets[i - 1].box, a.enemies, |a.enemies|);
      if hit.Some? {
        RemoveSized(a.enemies, hit.value);
        KillScore(a.enemies[hit.value]);
      }
      ShootDownCounts(b, i - 1, drop, kind);
    }
  }

  /** No bullet from index `from` on overlaps any enemy. */
  predicate Clear(bullets: seq<Body>, enemies: seq<Body>, from: nat)
  {
    forall k, e :: from <= k < |bullets| && 0 <= e < |enemies| ==> !Collide(bullets[k].box, enemies[e].box)
  }

  /** Removing a checked bullet and any enemy keeps the checked bullets clear. */
  lemma RemoveKeepsClear(bullets: seq<Body>, enemies: seq<Body>, i: nat, j: nat)
    requires i < |bullets| && j < |enemies| && Clear(bullets, enemies, i + 1)
    ensures Clear(Remove(bullets, i), Remove(enemies, j), i)
  {
    var bs, es := Remove(bullets, i), Remove(enemies, j);
    forall k, e | i <= k < |bs| && 0 <= e < |es|
      ensures !Collide(bs[k].box, es[e].box)
    {
      assert bs[k] == bullets[k + 1];
      assert es[e] == enemies[if e < j then e else e + 1];
    }
  }

  /** After the bullet pass no bullet left overlaps an enemy left: each
      bullet was checked against every enemy still present, and later
      kills only remove enemies. */
  lemma {:induction false} ShootDownClears(a: Arena, i: nat, drop: nat -> real, kind: nat -> real)
    requires i <= |a.bullets| && Clear(a.bullets, a.enemies, i)
    ensures var r := ShootDown(a, i, drop, kind); Clear(r.bullets, r.enemies, 0)
    decreases i
  {
    if i > 0 {
      var b := HitOne(a, i - 1, drop, kind);
      var hit := LastHit(a.bullets[i - 1].box, a.enemies, |a.enemies|);
      if hit.Some? {
        RemoveKeepsClear(a.bullets, a.enemies, i - 1, hit.value);
      }
      ShootDownClears(b, i - 1, drop, kind);
    }
  }

  // ---------------------------------------------------------------------
  // Choosing a power-up (spawnPowerup)
  // ---------------------------------------------------------------------

  /** `totalChance`: the sum of the weights. */
  function Total(types: seq<(PowerKind, real)>): real
  {
    if types == [] then 0.0 else types[0].1 + Total(types[1..])
  }

  /** The `for … of` loop: the weights are subtracted from the draw in turn
      and the first kind that brings it to zero or below is chosen. */
  function Chosen(types: seq<(PowerKind, real)>, draw: real): Option<PowerKind>
  {
    if types == [] then None
    else if draw - types[0].1 <= 0.0 then Some(types[0].0)
    else Chosen(types[1..], draw - types[0].1)
  }

  /** With weights that are not negative, a draw up to the total always
      chooses some kind: the fallback to the first kind is never used. */
  lemma {:induction false} ChosenWithinTotal(types: seq<(PowerKind, real)>, draw: real)
    requires types != [] && draw <= Total(types)
    requires forall k :: 0 <= k < |types| ==> types[k].1 >= 0.0
    ensures Chosen(types, draw).Some?
  {
    if draw - types[0].1 > 0.0 {
      assert types[1..] != [];
      forall k | 0 <= k < |types[1..]|
        ensures types[1..][k].1 >= 0.0
      {
        assert types[1..][k] == types[k + 1];
      }
      ChosenWithinTotal(types[1..], draw - types[0].1);
    }
  }

  /** The kind of a power-up for a draw `roll` in [0, 1): the draw scaled by
      the total weight, with the first kind as the fallback. */
  function SelectKind(roll: real): PowerKind
  {
    match Chosen(PowerupTypes, roll * Total(PowerupTypes))
    case None => PowerupTypes[0].0
    case Some(k) => k
  }

  /** The weights 0.2, 0.4 and 0.4 split [0, 1) into three bands: an extra
      life up to 0.2, a shield up to 0.6, rapid fire above. */
  lemma SelectKindBands(roll: real)
    requires 0.0 <= roll < 1.0
    ensures SelectKind(roll) == Life <==> roll <= 0.2
    ensures SelectKind(roll) == Shield <==> 0.2 < roll <= 0.6
    ensures SelectKind(roll) == RapidFire <==> 0.6 < roll
    ensures Chosen(PowerupTypes, roll * Total(PowerupTypes)).Some?
  {
    assert Total(PowerupTypes) == 1.0 by {
      assert PowerupTypes[1..] == [(Shield, 0.4), (RapidFire, 0.4)];
      assert PowerupTypes[1..][1..] == [(RapidFire, 0.4)];
      assert PowerupTypes[1..][1..][1..] == [];
    }
    var d := roll * Total(PowerupTypes);
    assert d == roll;
    assert PowerupTypes[1..] == [(Shield, 0.4), (RapidFire, 0.4)];
    assert PowerupTypes[1..][1..] == [(RapidFire, 0.4)];
    assert Chosen(PowerupTypes, d) ==
      if d <= 0.2 then Some(Life) else Chosen([(Shield, 0.4), (RapidFire, 0.4)], d - 0.2);
    assert Chosen([(Shield, 0.4), (RapidFire, 0.4)], d - 0.2) ==
      if d <= 0.6 then Some(Shield) else Chosen([(RapidFire, 0.4)], d - 0.6);
    assert Chosen([(RapidFire, 0.4)], d - 0.6) == Some(RapidFire);
  }

  // ---------------------------------------------------------------------
  // The player against enemies and power-ups (checkCollisions, applyPowerup)
  // ---------------------------------------------------------------------

  /** Enemy `j` rams the player: it explodes and is removed; a shield
      absorbs the blow and is used up, otherwise a life is lost. */
  function Crash(a: Arena, j: nat): (r: Arena)
    requires j < |a.enemies|
    ensures r == a.(enemies := r.enemies, explosions := r.explosions, player := r.player, lives := r.lives, state := r.state)
    ensures r.enemies == Remove(a.enemies, j) && r.explosions == a.explosions + [Blast(a.enemies[j].box)]
    ensures r.player.box == a.player.box && r.player.rapidFire == a.player.rapidFire
    ensures r.player.rapidFireTime == a.player.rapidFireTime && !r.player.shield
    ensures a.player.shield ==> r.lives == a.lives && r.state == a.state && r.player.shieldTime == 0
    ensures a.player.shield ==> r.player.invincible == a.player.invincible && r.player.invincibleTime == a.player.invincibleTime
    ensures !a.player.shield ==> r == Hurt(a).(enemies := r.enemies, explosions := r.explosions)
  {
    var b := a.(explosions := a.explosions + [Blast(a.enemies[j].box)], enemies := Remove(a.enemies, j));
    if b.player.shield then b.(player := b.player.(shield := false, shieldTime := 0)) else Hurt(b)
  }

  /** The loop over enemies against the player, from index `i - 1` down to
      0; it stops once a blow has ended the game. */
  function Ram(a: Arena, i: nat): Arena
    requires i <= |a.enemies|
    decreases i
  {
    if i == 0 then a
    else if !Collide(a.player.box, a.enemies[i - 1].box) then Ram(a, i - 1)
    else
      var c := Crash(a, i - 1);
      if !a.player.shield && c.lives <= 0 then c else Ram(c, i - 1)
  }

  /** The second block of `checkCollisions`: an invincible player is not
      checked at all. Invincibility gained during the loop does not stop
      it, so several rammed enemies can cost several lives in one frame. */
  function PlayerPass(a: Arena): Arena
  {
    if a.player.invincible then a else Ram(a, |a.enemies|)
  }

  /** What the enemy loop removes: each rammed enemy goes with one
      explosion, and only the player's lives, state and abilities change. */
  lemma {:induction false} RamShape(a: Arena, i: nat)
    requires i <= |a.enemies|
    ensures var r := Ram(a, i);
      var hits := |a.enemies| - |r.enemies|;
      && r == a.(enemies := r.enemies, explosions := r.explosions, player := r.player, lives := r.lives, state := r.state)
      && r.player.box == a.player.box && r.player.rapidFire == a.player.rapidFire
      && r.player.rapidFireTime == a.player.rapidFireTime
      && 0 <= hits <= i && |r.explosions| - |a.explosions| == hits
      && (hits == 0 ==> r == a)
      && (EnemiesSized(a.enemies) ==> EnemiesSized(r.enemies))
    decreases i
  {
    if i > 0 {
      if !Collide(a.player.box, a.enemies[i - 1].box) {
        RamShape(a, i - 1);
      } else {
        if EnemiesSized(a.enemies) {
          RemoveSized(a.enemies, i - 1);
        }
        var c := Crash(a, i - 1);
        if a.player.shield || c.lives > 0 {
          RamShape(c, i - 1);
        }
      }
    }
  }

  /** What the enemy loop costs: each rammed enemy at most one life; a
      shield absorbs the first and is then gone; a player with a life left
      never ends below zero lives. */
  lemma {:induction false} RamLives(a: Arena, i: nat)
    requires i <= |a.enemies|
    ensures var r := Ram(a, i);
      var hits := |a.enemies| - |r.enemies|;
      && 0 <= a.lives - r.lives <= hits
      && (a.player.shield && hits > 0 ==> a.lives - r.lives <= hits - 1)
      && (hits > 0 ==> !r.player.shield)
      && (a.lives >= 1 ==> r.lives >= 0)
    decreases i
  {
    RamShape(a, i);
    if i > 0 {
      if !Collide(a.player.box, a.enemies[i - 1].box) {
        RamLives(a, i - 1);
      } else {
        var c := Crash(a, i - 1);
        if a.player.shield || c.lives > 0 {
          RamShape(c, i - 1);
          RamLives(c, i - 1);
        }
      }
    }
  }

  /** Every life lost in the enemy loop leaves the player invincible, the
      game is over exactly when a blow took the last life, and the timers
      keep their invariant. */
  lemma {:induction false} RamSpec(a: Arena, i: nat)
    requires i <= |a.enemies|
    ensures var r := Ram(a, i);
      && (r.lives < a.lives ==> r.player.invincible && r.player.invincibleTime == HurtFrames)
      && (a.player.invincible && a.player.invincibleTime == HurtFrames ==>
            r.player.invincible && r.player.invincibleTime == HurtFrames)
      && (r.state == GameOver <==> a.state == GameOver || (r.lives < a.lives && r.lives <= 0))
      && (TimersConsistent(a.player) ==> TimersConsistent(r.player))
    decreases i
  {
    if i > 0 {
      if !Collide(a.player.box, a.enemies[i - 1].box) {
        RamSpec(a, i - 1);
      } else {
        var c := Crash(a, i - 1);
        if a.player.shield || c.lives > 0 {
          RamLives(c, i - 1);
          RamSpec(c, i - 1);
        }
      }
    }
  }

  /** Without a shield, every enemy the plane overlaps costs a life in the
      same loop, down to the blow that takes the last one. */
  lemma {:induction false} RamEvery(a: Arena, i: nat)
    requires i <= |a.enemies| && !a.player.shield && a.lives >= i
    requires forall k :: 0 <= k < i ==> Collide(a.player.box, a.enemies[k].box)
    ensures var r := Ram(a, i);
      && r.lives == a.lives - i && |r.enemies| == |a.enemies| - i
      && (i > 0 && a.lives == i ==> r.state == GameOver)
    decreases i
  {
    if i > 0 {
      var c := Crash(a, i - 1);
      if c.lives > 0 {
        forall k | 0 <= k < i - 1
          ensures Collide(c.player.box, c.enemies[k].box)
        {
        }
        RamEvery(c, i - 1);
      }
    }
  }

  /** The player pass does not recheck invincibility between blows: a
      vulnerable plane without a shield that overlaps several enemies loses
      one life for each of them in a single frame. */
  lemma SeveralLivesPerFrame(a: Arena)
    requires !a.player.invincible && !a.player.shield && a.lives >= |a.enemies|
    requires forall k :: 0 <= k < |a.enemies| ==> Collide(a.player.box, a.enemies[k].box)
    ensures var r := PlayerPass(a);
      && r.lives == a.lives - |a.enemies| && r.enemies == []
      && (|a.enemies| > 0 && a.lives == |a.enemies| ==> r.state == GameOver)
  {
    RamEvery(a, |a.enemies|);
  }

  /** `applyPowerup`: an extra life up to five, a shield for 300 frames, or
      rapid fire for 300 frames with a shot every 5 frames. */
  function ApplyPowerup(a: Arena, kind: PowerKind): Arena
  {
    match kind
    case Life => a.(lives := Min(a.lives + 1, MaxLives))
    case Shield => a.(player := a.player.(shield := true, shieldTime := PowerFrames))
    case RapidFire =>
      a.(player := a.player.(rapidFire := true, rapidFireTime := PowerFrames), bulletCooldownTime := RapidCooldown)
  }

  /** A power-up is left in place by the player pass ... */
  function Still(p: Powerup): Powerup
  {
    p
  }

  /** ... unless the player's box overlaps it. */
  function Missed(box: Rect): Powerup -> bool
  {
    (p: Powerup) => !Collide(box, p.body.box)
  }

  /** The third block of `checkCollisions`, from index `i - 1` down to 0:
      every power-up the player touches is applied and removed. */
  function Collect(a: Arena, i: nat): Arena
    requires i <= |a.powerups|
    decreases i
  {
    if i == 0 then a
    else if Collide(a.player.box, a.powerups[i - 1].body.box) then
      Collect(ApplyPowerup(a, a.powerups[i - 1].kind).(powerups := Remove(a.powerups, i - 1)), i - 1)
    else Collect(a, i - 1)
  }

  /** The power-ups left are, in order, exactly those the player does not
      touch. */
  lemma {:induction false} CollectPowerups(a: Arena, i: nat)
    requires i <= |a.powerups|
    ensures Collect(a, i).powerups == Survivors(a.powerups[..i], Still, Missed(a.player.box)) + a.powerups[i..]
    decreases i
  {
    if i > 0 {
      var p := a.powerups[i - 1];
      assert a.powerups[..i] == a.powerups[..i - 1] + [p];
      SurvivorsAppend(a.powerups[..i - 1], [p], Still, Missed(a.player.box));
      assert Survivors([p], Still, Missed(a.player.box)) ==
        (if Collide(a.player.box, p.body.box) then [] else [p]);
      if Collide(a.player.box, p.body.box) {
        var b := ApplyPowerup(a, p.kind).(powerups := Remove(a.powerups, i - 1));
        assert b.player.box == a.player.box;
        assert b.powerups[..i - 1] == a.powerups[..i - 1];
        assert b.powerups[i - 1..] == a.powerups[i..];
        CollectPowerups(b, i - 1);
      } else {
        assert a.powerups[i - 1..] == [p] + a.powerups[i..];
        CollectPowerups(a, i - 1);
      }
    }
  }

  /** The invariants a power-up keeps: its box and invincibility are not
      the player's concern, lives stay within five, the timers consistent,
      and rapid fire comes with the fast firing interval. */
  predicate PowerupSafe(a: Arena)
  {
    && 0 <= a.lives <= MaxLives
    && TimersConsistent(a.player)
    && (a.bulletCooldownTime == NormalCooldown || a.bulletCooldownTime == RapidCooldown)
    && (a.player.rapidFire ==> a.bulletCooldownTime == RapidCooldown)
  }

  /** Collecting power-ups moves nothing: the box and invincibility of the
      player stay, lives never drop, and the invariants are kept. */
  lemma {:induction false} CollectSpec(a: Arena, i: nat)
    requires i <= |a.powerups|
    ensures var r := Collect(a, i);
      && r == a.(powerups := r.powerups, lives := r.lives, player := r.player, bulletCooldownTime := r.bulletCooldownTime)
      && r.player.box == a.player.box && r.player.invincible == a.player.invincible
      && r.player.invincibleTime == a.player.invincibleTime
      && (PowerupSafe(a) ==> PowerupSafe(r) && a.lives <= r.lives)
    decreases i
  {
    if i > 0 {
      var p := a.powerups[i - 1];
      if Collide(a.player.box, p.body.box) {
        CollectSpec(ApplyPowerup(a, p.kind).(powerups := Remove(a.powerups, i - 1)), i - 1);
      } else {
        CollectSpec(a, i - 1);
      }
    }
  }

  /** `checkCollisions`: bullets against enemies, then the player against
      enemies, then the player against power-ups. */
  function Collisions(a: Arena, drop: nat -> real, kind: nat -> real): Arena
  {
    var a1 := ShootDown(a, |a.bullets|, drop, kind);
    var a2 := PlayerPass(a1);
    Collect(a2, |a2.powerups|)
  }

  // ---------------------------------------------------------------------
  // Levels and the whole frame (update)
  // ---------------------------------------------------------------------

  /** The level check at the end of `update`: reaching `level * 1000`
      points raises the level by one and spawns enemies 5 frames sooner,
      but never more often than every 10 frames. */
  function LevelUp(a: Arena): Arena
  {
    if a.score >= a.level * LevelThreshold then
      a.(level := a.level + 1, enemySpawnTime := Max(MinSpawnTime, a.enemySpawnTime - SpawnTimeStep))
    else a
  }

  /** A frame raises the level by at most one, exactly when the threshold
      is reached, and the spawn interval then shrinks by five frames down
      to its floor of ten. */
  lemma LevelUpSpec(a: Arena)
    requires a.enemySpawnTime >= MinSpawnTime
    ensures var r := LevelUp(a);
      && r == a.(level := r.level, enemySpawnTime := r.enemySpawnTime)
      && (r.level == a.level + 1 <==> a.score >= a.level * LevelThreshold)
      && (r.level == a.level <==> a.score < a.level * LevelThreshold)
      && MinSpawnTime <= r.enemySpawnTime <= a.enemySpawnTime
      && (r.level == a.level + 1 && a.enemySpawnTime >= MinSpawnTime + SpawnTimeStep ==>
            r.enemySpawnTime == a.enemySpawnTime - SpawnTimeStep)
      && (r.level == a.level ==> r.enemySpawnTime == a.enemySpawnTime)
  {
  }

  /** The moving half of `update`: timers, firing, bullets, the spawn
      counter, enemies, power-ups and explosions. */
  function Advance(a: Arena, width: real, height: real, rolls: Rolls): Arena
  {
    var a1 := Fire(TickTimers(a));
    var a2 := a1.(bullets := Survivors(a1.bullets, Rise, Visible));
    var a3 := SpawnStep(a2, rolls.enemySize, rolls.enemySpeed, rolls.enemyX, width);
    var a4 := Descend(a3, height);
    var a5 := a4.(powerups := Survivors(a4.powerups, Drift, PowerupBelow(height)));
    a5.(explosions := Survivors(a5.explosions, Fade, Burning))
  }

  /** `update` for one frame while playing: the moving half, then the
      collisions and the level. The frame time it is given is not used. */
  function Step(a: Arena, width: real, height: real, rolls: Rolls): Arena
  {
    LevelUp(Collisions(Advance(a, width, height, rolls), rolls.drop, rolls.kind))
  }

  /** The invariant of the game object between frames. */
  predicate Inv(a: Arena)
  {
    && a.player.box.width == PlayerSize && a.player.box.height == PlayerSize
    && TimersConsistent(a.player)
    && 0 <= a.lives <= MaxLives && (a.state == Playing || a.state == Start ==> a.lives >= 1)
    && a.level >= 1 && a.score >= 0
    && MinSpawnTime <= a.enemySpawnTime <= StartSpawnTime
    && 0 <= a.enemySpawnCounter < StartSpawnTime
    && 0 <= a.bulletCooldown <= NormalCooldown
    && (a.bulletCooldownTime == NormalCooldown || a.bulletCooldownTime == RapidCooldown)
    && (a.player.rapidFire ==> a.bulletCooldownTime == RapidCooldown)
    && EnemiesSized(a.enemies)
  }

  lemma {:induction false} FallSized(enemies: seq<Body>, height: real)
    requires EnemiesSized(enemies)
    ensures EnemiesSized(Survivors(enemies, Fall, Below(height)))
  {
    if enemies != [] {
      FallSized(enemies[1..], height);
    }
  }

  /** The timers and the cooldown keep the invariant. */
  lemma TimersKeepInv(a: Arena)
    requires Inv(a)
    ensures var r := Fire(TickTimers(a));
      && Inv(r) && r.state == a.state && r.lives == a.lives && r.enemies == a.enemies
  {
    TickTimersConsistent(a);
    FireSpec(TickTimers(a));
  }

  /** The spawn counter keeps the invariant. */
  lemma SpawnKeepsInv(a: Arena, rolls: Rolls, width: real)
    requires Inv(a) && RollsInRange(rolls)
    ensures var r := SpawnStep(a, rolls.enemySize, rolls.enemySpeed, rolls.enemyX, width);
      && Inv(r) && r.state == a.state && r.lives == a.lives
  {
    NewEnemyBounds(rolls.enemySize, rolls.enemySpeed, rolls.enemyX, a.level, width);
  }

  /** The enemies' descent keeps the invariant while playing, and leaves a
      vulnerable player with a life. */
  lemma DescendKeepsInv(a: Arena, height: real)
    requires Inv(a) && a.state == Playing
    ensures var r := Descend(a, height);
      && Inv(r) && r.score == a.score && r.level == a.level
      && (r.player.invincible || r.lives >= 1)
  {
    FallSized(a.enemies, height);
    DescendSpec(a, height);
  }

  /** A whole frame keeps the invariant. */
  lemma {:induction false} StepKeepsInv(a: Arena, width: real, height: real, rolls: Rolls)
    requires Inv(a) && a.state == Playing && RollsInRange(rolls)
    ensures Inv(Step(a, width, height, rolls))
  {
    var a1 := Fire(TickTimers(a));
    TimersKeepInv(a);
    var a2 := a1.(bullets := Survivors(a1.bullets, Rise, Visible));
    var a3 := SpawnStep(a2, rolls.enemySize, rolls.enemySpeed, rolls.enemyX, width);
    SpawnKeepsInv(a2, rolls, width);
    var a4 := Descend(a3, height);
    DescendKeepsInv(a3, height);
    var a5 := a4.(powerups := Survivors(a4.powerups, Drift, PowerupBelow(height)));
    var a6 := a5.(explosions := Survivors(a5.explosions, Fade, Burning));
    assert a6 == Advance(a, width, height, rolls);
    CollisionsKeepInv(a6, rolls);
    LevelUpSpec(Collisions(a6, rolls.drop, rolls.kind));
  }

  /** The collisions keep the invariant; the score only grows. */
  lemma {:induction false} CollisionsKeepInv(a: Arena, rolls: Rolls)
    requires Inv(a) && (a.player.invincible || a.lives >= 1)
    ensures Inv(Collisions(a, rolls.drop, rolls.kind))
    ensures Collisions(a, rolls.drop, rolls.kind).score >= a.score
  {
    var a1 := ShootDown(a, |a.bullets|, rolls.drop, rolls.kind);
    ShootDownCounts(a, |a.bullets|, rolls.drop, rolls.kind);
    var a2 := PlayerPass(a1);
    if !a1.player.invincible {
      RamShape(a1, |a1.enemies|);
      RamLives(a1, |a1.enemies|);
      RamSpec(a1, |a1.enemies|);
    }
    assert Inv(a2);
    CollectSpec(a2, |a2.powerups|);
  }

  // ---------------------------------------------------------------------
  // Restarting and steering (resetGame, gameOver, handleTouchMove)
  // ---------------------------------------------------------------------

  /** `resetGame`: a new game at level one with three lives and an empty
      sky. The firing interval, the cooldown, the spawn counter, the
      position of the plane and the touch flag are kept. */
  function Reset(a: Arena): Arena
  {
    a.(state := Playing, score := 0, lives := StartLives, level := 1,
       enemies := [], bullets := [], powerups := [], explosions := [],
       enemySpawnTime := StartSpawnTime,
       player := a.player.(shield := false, shieldTime := 0, rapidFire := false, rapidFireTime := 0,
                           invincible := false, invincibleTime := 0))
  }

  /** A reset game satisfies the invariant and is playing. Because the
      firing interval is kept, a game reset while rapid fire was active
      goes on firing every 5 frames without the ability. */
  lemma ResetSpec(a: Arena)
    requires Inv(a)
    ensures var r := Reset(a);
      && Inv(r) && r.state == Playing && r.lives == StartLives && r.score == 0
      && r.bullets == [] && r.enemies == [] && r.powerups == [] && r.explosions == []
      && !r.player.shield && !r.player.rapidFire && !r.player.invincible
      && r.bulletCooldownTime == a.bulletCooldownTime && r.player.box == a.player.box
      && r.bulletCooldown == a.bulletCooldown && r.enemySpawnCounter == a.enemySpawnCounter
      && (a.player.rapidFire ==> r.bulletCooldownTime == RapidCooldown)
  {
  }

  /** `handleTouchMove`: the plane is centred on the touch point, then
      clamped so that it stays on the canvas. */
  function Follow(p: Player, tx: real, ty: real, width: real, height: real): Player
  {
    var w, h := p.box.width, p.box.height;
    p.(box := p.box.(x := MaxReal(0.0, MinReal(width - w, tx - w / 2.0)),
                     y := MaxReal(0.0, MinReal(height - h, ty - h / 2.0))))
  }

  /** On a canvas at least as large as the plane, the plane ends up inside
      the canvas, centred on the touch point whenever that is possible,
      and otherwise against the nearest edge. */
  lemma FollowSpec(p: Player, tx: real, ty: real, width: real, height: real)
    requires width >= p.box.width && height >= p.box.height
    ensures var q := Follow(p, tx, ty, width, height);
      && q == p.(box := q.box) && q.box.width == p.box.width && q.box.height == p.box.height
      && 0.0 <= q.box.x <= width - q.box.width && 0.0 <= q.box.y <= height - q.box.height
      && (0.0 <= tx - p.box.width / 2.0 <= width - p.box.width ==> CentreX(q.box) == tx)
      && (0.0 <= ty - p.box.height / 2.0 <= height - p.box.height ==> CentreY(q.box) == ty)
      && (tx - p.box.width / 2.0 < 0.0 ==> q.box.x == 0.0)
      && (tx - p.box.width / 2.0 > width - p.box.width ==> q.box.x == width - p.box.width)
  {
  }
}
