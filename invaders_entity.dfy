/** Space invaders: the entity record and the rules the game loop applies
    to entities and the projectile list. Positions, velocities and sizes
    are float kinematics and are not part of the record; where the loop
    tests them (the circle overlap of `collided`) the outcome is an input. */
module InvadersEntity {

  /** MAX_BULLETS. */
  const MAX_BULLETS := 100
  /** The delay the player waits after each shot. */
  const PLAYER_SHOOT_DELAY := 20
  /** The enemy grid: 4 rows of 6 columns. */
  const ROWS := 4
  const COLUMNS := 6
  const ENEMY_COUNT := 24
  /** The score at which the player has won. */
  const MAX_SCORE := 24

  /** An `Entity`: its side, whether it shoots (players and enemies) or is
      a projectile, and the two integer counters. */
  datatype Entity = Entity(friendly: bool, canShoot: bool, health: int, shootDelay: int)

  /** `rand() % 80 + 80`, with `roll` the value `rand()` returned. */
  function HostileDelay(roll: nat): (d: int)
    ensures 80 <= d <= 159
  {
    roll % 80 + 80
  }

  /** The `Entity` constructor. A projectile's `shootDelay` is never set by
      the program; the model gives it 0. */
  function NewEntity(friendly: bool, canShoot: bool, roll: nat): (e: Entity)
    ensures e.friendly == friendly && e.canShoot == canShoot
    ensures friendly && canShoot ==> e.health == 3 && e.shootDelay == PLAYER_SHOOT_DELAY
    ensures !friendly && canShoot ==> e.health == 1 && 80 <= e.shootDelay <= 159
    ensures !canShoot ==> e.health == 100
  {
    var health := if friendly then 3 else 1;
    var delay := if !canShoot then 0 else if friendly then PLAYER_SHOOT_DELAY else HostileDelay(roll);
    Entity(friendly, canShoot, if canShoot then health else 100, delay)
  }

  /** `Entity::collided`, with `touching` the outcome of the circle test. */
  predicate Collided(a: Entity, b: Entity, touching: bool)
  {
    a.friendly != b.friendly && touching
  }

  /** Entities on the same side never collide, whatever their positions;
      so an enemy's shot never hurts an enemy and the player's never hurts
      the player. */
  lemma SameSideNeverCollides(a: Entity, b: Entity, touching: bool)
    requires a.friendly == b.friendly
    ensures !Collided(a, b, touching)
  {
  }

  /** The circle test is symmetric, and so is `collided`. */
  lemma CollidedSymmetric(a: Entity, b: Entity, touching: bool)
    ensures Collided(a, b, touching) <==> Collided(b, a, touching)
  {
  }

  /** The projectile a shooter fires: on the shooter's side, not shooting,
      with health 100 as its lifetime. */
  lemma ShotOfShooter(shooter: Entity)
    ensures var p := NewEntity(shooter.friendly, false, 0);
            p.friendly == shooter.friendly && !p.canShoot && p.health == 100
  {
  }

  // ---------------------------------------------------------------------
  // The projectile buffer

  /** One append site: when the buffer already holds more than
      MAX_BULLETS projectiles the oldest is erased, then `p` is pushed. */
  function Capped(buf: seq<Entity>, p: Entity): seq<Entity>
  {
    (if |buf| > MAX_BULLETS then buf[1..] else buf) + [p]
  }

  /** The buffer never grows past MAX_BULLETS + 1, the new projectile is
      the newest, and the others keep their order, at most the oldest one
      being dropped. */
  lemma CappedKeeps(buf: seq<Entity>, p: Entity)
    ensures var r := Capped(buf, p);
            (|buf| <= MAX_BULLETS + 1 ==> |r| <= MAX_BULLETS + 1) &&
            |r| == (if |buf| > MAX_BULLETS then |buf| else |buf| + 1) &&
            r[|r| - 1] == p &&
            r[..|r| - 1] == buf[|buf| + 1 - |r|..]
  {
  }

  /** The buffer after the projectiles `ps` are pushed one by one. */
  function PushAll(buf: seq<Entity>, ps: seq<Entity>): seq<Entity>
    decreases |ps|
  {
    if |ps| == 0 then buf else PushAll(Capped(buf, ps[0]), ps[1..])
  }

  /** How many of `n` entries the projectile list can hold at once. */
  function Retained(n: nat): nat
  {
    if n <= MAX_BULLETS + 1 then n else MAX_BULLETS + 1
  }

  /** From an empty buffer, pushing `ps` leaves the newest
      Retained(|ps|) of them, in the order they were fired. */
  lemma {:induction false} PushAllFromEmpty(ps: seq<Entity>)
    ensures var r := PushAll([], ps);
            |r| == Retained(|ps|) && r == ps[|ps| - |r|..]
  {
    PushAllSuffix([], ps);
  }

  /** Generalisation: pushing `ps` onto `buf` of at most MAX_BULLETS + 1
      leaves the newest entries of `buf + ps`. */
  lemma {:induction false} PushAllSuffix(buf: seq<Entity>, ps: seq<Entity>)
    requires |buf| <= MAX_BULLETS + 1
    ensures var r := PushAll(buf, ps);
            |r| == Retained(|buf| + |ps|) && r == (buf + ps)[|buf| + |ps| - |r|..]
    decreases |ps|
  {
    if |ps| > 0 {
      var c := Capped(buf, ps[0]);
      CappedKeeps(buf, ps[0]);
      PushAllSuffix(c, ps[1..]);
      var r := PushAll(c, ps[1..]);
      assert r == PushAll(buf, ps);
      var all := buf + ps;
      assert c + ps[1..] == all[|all| - |c| - |ps[1..]|..] by {
        if |buf| > MAX_BULLETS {
          assert c == buf[1..] + [ps[0]];
          assert all[1..] == buf[1..] + [ps[0]] + ps[1..];
        } else {
          assert c + ps[1..] == all;
        }
      }
      assert |c| + |ps[1..]| - |r| >= 0;
      assert (c + ps[1..])[|c| + |ps[1..]| - |r|..] == all[|all| - |r|..];
    }
  }

  // ---------------------------------------------------------------------
  // Per-frame update of the integer counters

  /** A float converted back to `int`: truncation toward zero. */
  function Trunc(x: real): int
  {
    if x >= 0.0 then x.Floor else -((-x).Floor)
  }

  /** `v -= elapsed` on an `int` counter: the difference is computed in
      floating point (here as an exact real) and truncated back. */
  function TickDown(v: int, elapsed: real): int
  {
    Trunc(v as real - elapsed)
  }

  /** A frame shorter than a second takes exactly one off a positive
      counter and leaves a counter at or below 0 where it is: the counters
      count frames. */
  lemma TickDownFrame(v: int, elapsed: real)
    requires 0.0 < elapsed < 1.0
    ensures TickDown(v, elapsed) == (if v > 0 then v - 1 else v)
  {
    if v > 0 {
      assert (v - 1) as real <= v as real - elapsed < v as real;
    } else {
      assert (-v) as real < elapsed - v as real < (-v + 1) as real;
    }
  }

  /** `Entity::Update` on the counters: the shoot delay runs down. */
  function Update(e: Entity, elapsed: real): Entity
  {
    e.(shootDelay := TickDown(e.shootDelay, elapsed))
  }

  /** A projectile's health after a run of frames with the given frame
      times, nothing hitting it. */
  function LifeAfter(health: int, frames: seq<real>): int
  {
    if |frames| == 0 then health
    else TickDown(LifeAfter(health, frames[..|frames| - 1]), frames[|frames| - 1])
  }

  /** With every frame shorter than a second, a projectile fired with
      health 100 that hits nothing is still alive after 99 frames and
      expires in its 100th. */
  lemma {:induction false} ProjectileLifetime(frames: seq<real>)
    requires forall k :: 0 <= k < |frames| ==> 0.0 < frames[k] < 1.0
    ensures |frames| <= 100 ==> LifeAfter(100, frames) == 100 - |frames|
    ensures LifeAfter(100, frames) > 0 <==> |frames| < 100
  {
    if |frames| > 0 {
      var n := |frames| - 1;
      ProjectileLifetime(frames[..n]);
      TickDownFrame(LifeAfter(100, frames[..n]), frames[n]);
    }
  }

  // ---------------------------------------------------------------------
  // Expiry

  /** What the expiry loop keeps of the projectiles `us`, each as it is
      after its visit: those whose health is still positive. */
  function Kept(us: seq<Entity>): seq<Entity>
  {
    if |us| == 0 then []
    else
      var n := |us| - 1;
      Kept(us[..n]) + (if us[n].health > 0 then [us[n]] else [])
  }

  /** The indices of the entries whose health is positive, ascending. */
  function Alive(us: seq<Entity>): seq<nat>
  {
    if |us| == 0 then []
    else
      var n := |us| - 1;
      Alive(us[..n]) + (if us[n].health > 0 then [n] else [])
  }

  /** The indices of the live entries are in range and ascending. */
  lemma {:induction false} AliveAscending(us: seq<Entity>)
    ensures forall j :: 0 <= j < |Alive(us)| ==> Alive(us)[j] < |us|
    ensures forall j, j' :: 0 <= j < j' < |Alive(us)| ==> Alive(us)[j] < Alive(us)[j']
  {
    if |us| > 0 {
      var n := |us| - 1;
      AliveAscending(us[..n]);
      var a0 := Alive(us[..n]);
      assert Alive(us) == a0 + (if us[n].health > 0 then [n] else []);
      assert forall j :: 0 <= j < |a0| ==> a0[j] < n;
    }
  }

  /** An index is listed exactly when its entry is alive. */
  lemma {:induction false} AliveMembers(us: seq<Entity>)
    ensures forall k :: 0 <= k < |us| ==> (us[k].health > 0 <==> k in Alive(us))
  {
    if |us| > 0 {
      var n := |us| - 1;
      var p := us[..n];
      AliveMembers(p);
      AliveAscending(p);
      var a0 := Alive(p);
      assert Alive(us) == a0 + (if us[n].health > 0 then [n] else []);
      assert n !in a0;
      assert forall k :: 0 <= k < n ==> p[k] == us[k];
    }
  }

  /** The kept projectiles are the live entries, one for one. */
  lemma {:induction false} KeptIsAlive(us: seq<Entity>)
    ensures var s, a := Kept(us), Alive(us);
            |s| == |a| && forall j :: 0 <= j < |a| ==> a[j] < |us| && s[j] == us[a[j]]
  {
    if |us| > 0 {
      var n := |us| - 1;
      var p := us[..n];
      KeptIsAlive(p);
      AliveAscending(p);
      assert forall k :: 0 <= k < n ==> p[k] == us[k];
    }
  }

  /** The loop keeps exactly the projectiles whose health is positive,
      each once, in their original order. */
  lemma KeptAreAlive(us: seq<Entity>)
    ensures var s, a := Kept(us), Alive(us);
            |s| == |a| <= |us| &&
            (forall j :: 0 <= j < |a| ==> a[j] < |us| && s[j] == us[a[j]]) &&
            (forall j, j' :: 0 <= j < j' < |a| ==> a[j] < a[j']) &&
            (forall k :: 0 <= k < |us| ==> (us[k].health > 0 <==> k in a))
  {
    AliveAscending(us);
    AliveMembers(us);
    KeptIsAlive(us);
    AliveLength(us);
  }

  lemma {:induction false} AliveLength(us: seq<Entity>)
    ensures |Alive(us)| <= |us|
  {
    if |us| > 0 {
      AliveLength(us[..|us| - 1]);
    }
  }

  /** Replacing the first of the unvisited entries `rest` after the
      prefix `a` by `x`, and then erasing it. */
  lemma Splice(a: seq<Entity>, rest: seq<Entity>, x: Entity)
    requires |rest| > 0
    ensures (a + rest)[|a| := x] == a + [x] + rest[1..]
    ensures (a + rest)[|a| := x][..|a|] + (a + rest)[|a| := x][|a| + 1..] == a + rest[1..]
  {
    var s := (a + rest)[|a| := x];
    assert s == a + [x] + rest[1..];
    assert s[..|a|] == a;
    assert s[|a| + 1..] == rest[1..];
  }

  /** Every projectile kept is alive. */
  lemma KeptHealthy(us: seq<Entity>)
    ensures forall j :: 0 <= j < |Kept(us)| ==> Kept(us)[j].health > 0
  {
    KeptAreAlive(us);
  }

  /** One more projectile visited. */
  lemma KeptAppend(us: seq<Entity>, u: Entity)
    ensures Kept(us + [u]) == Kept(us) + (if u.health > 0 then [u] else [])
  {
    assert (us + [u])[..|us|] == us;
  }

  // ---------------------------------------------------------------------
  // The front-of-column rule

  /** Enemy `i` is at the front of its column: no living enemy at
      i - 6, i - 12, ... down to index 0. */
  predicate FrontOfColumn(es: seq<Entity>, i: nat)
    requires i <= |es|
  {
    forall k :: 0 <= k < i && (i - k) % COLUMNS == 0 ==> es[k].health <= 0
  }

  /** The rule as the loop is written: `prev > 0` stops before index 0. */
  predicate FrontOfColumnAsWritten(es: seq<Entity>, i: nat)
    requires i <= |es|
  {
    forall k :: 0 < k < i && (i - k) % COLUMNS == 0 ==> es[k].health <= 0
  }

  /** In the row-major grid the indices the rule examines are exactly the
      enemies of the same column in the rows nearer the player. */
  lemma AheadInColumn(i: nat, k: nat)
    ensures (k < i && (i - k) % COLUMNS == 0) <==> (k % COLUMNS == i % COLUMNS && k / COLUMNS < i / COLUMNS)
  {
  }

  /** A fresh grid of enemies in row-major order, enemy k (row k / 6,
      column k % 6) drawing its delay from the k-th roll. */
  function Grid(rolls: nat -> nat): seq<Entity>
  {
    seq(ENEMY_COUNT, (k: int) requires 0 <= k => NewEntity(false, true, rolls(k)))
  }

  /** The grid is built one enemy at a time. */
  lemma GridSnoc(rolls: nat -> nat, m: nat)
    requires m < ENEMY_COUNT
    ensures Grid(rolls)[..m + 1] == Grid(rolls)[..m] + [NewEntity(false, true, rolls(m))]
  {
    assert Grid(rolls)[m] == NewEntity(false, true, rolls(m));
  }

  /** The rule as written lets enemy 6 fire although enemy 0, in front of
      it in column 0, is alive: on a fresh grid it says enemy 6 is at the
      front. */
  lemma AsWrittenIgnoresEnemyZero(rolls: nat -> nat)
    ensures FrontOfColumnAsWritten(Grid(rolls), 6)
    ensures !FrontOfColumn(Grid(rolls), 6)
  {
    assert Grid(rolls)[0] == NewEntity(false, true, rolls(0));
  }

  /** With the bound corrected, on a full grid the enemies at the front
      are exactly those of the first row. */
  lemma FrontOfFreshGrid(rolls: nat -> nat, i: nat)
    requires i < ENEMY_COUNT
    ensures FrontOfColumn(Grid(rolls), i) <==> i < COLUMNS
  {
    if i >= COLUMNS {
      assert Grid(rolls)[i - COLUMNS] == NewEntity(false, true, rolls(i - COLUMNS));
    }
  }

  // ---------------------------------------------------------------------
  // End of game

  /** The end-of-frame test as written: `player.health == 0`. */
  predicate GameEndsAsWritten(health: int, score: int)
  {
    health == 0 || score >= MAX_SCORE
  }

  /** The test as intended: the player has no health left, or every enemy
      has been scored. */
  predicate GameEnds(health: int, score: int)
  {
    health <= 0 || score >= MAX_SCORE
  }

  /** Two hits in one frame take a player with 1 health to -1, and the
      test as written then lets the game go on. */
  lemma AsWrittenMissesNegativeHealth()
    ensures !GameEndsAsWritten(-1, 0) && GameEnds(-1, 0)
  {
  }

  /** Corrected, the game is over whenever the health is used up, however
      far below 0 it went, and the two tests agree while the health is not
      negative. */
  lemma GameOverWhenHealthGone(health: int, score: int)
    ensures health <= 0 ==> GameEnds(health, score)
    ensures health >= 0 ==> (GameEnds(health, score) <==> GameEndsAsWritten(health, score))
  {
  }

  // ---------------------------------------------------------------------
  // The two versions of the rules

  /** Which version of the front-of-column rule and of the end-of-frame
      test a run follows: the program as written (`prev > 0`,
      `player.health == 0`) or as corrected (`prev >= 0`,
      `player.health <= 0`). */
  datatype Rules = AsWritten | Corrected

  /** The front-of-column rule of the chosen version. */
  predicate Front(rules: Rules, es: seq<Entity>, i: nat)
    requires i <= |es|
  {
    if rules == AsWritten then FrontOfColumnAsWritten(es, i) else FrontOfColumn(es, i)
  }

  /** The end-of-frame test of the chosen version. */
  predicate Ends(rules: Rules, health: int, score: int)
  {
    if rules == AsWritten then GameEndsAsWritten(health, score) else GameEnds(health, score)
  }

  /** The two versions differ only where the source goes wrong: the rule
      as written also lets through an enemy blocked by enemy 0 alone, and
      the two end tests differ only at negative health. */
  lemma VersionsDiffer(es: seq<Entity>, i: nat, health: int, score: int)
    requires i <= |es|
    ensures Front(Corrected, es, i) ==> Front(AsWritten, es, i)
    ensures Front(AsWritten, es, i) && !Front(Corrected, es, i) <==>
              FrontOfColumnAsWritten(es, i) && 0 < i && i % COLUMNS == 0 && es[0].health > 0
    ensures Ends(AsWritten, health, score) ==> Ends(Corrected, health, score)
    ensures Ends(Corrected, health, score) && !Ends(AsWritten, health, score) <==>
              health < 0 && score < MAX_SCORE
  {
  }
}
