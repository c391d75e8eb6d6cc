/** Space invaders: the game's globals (`player`, `enemies`, `projectiles`,
    `score` and the state of `main`) as one object, and the parts of the
    main loop that change them: starting and resetting a game, the
    player's shot, the enemies' turns with the front-of-column check, the
    projectiles' visits with the expiry loop, and the end-of-frame test.
    Calls of `rand()` take their values from `rolls`; what the frame's
    positions decide is an input. */
module InvadersGame {
  import opened InvadersEntity
  import opened InvadersRules

  datatype GameState = Title | Game | GameOver

  class Invaders {
    /** Which version of the enemies' front-of-column check and of the
        end-of-frame test this game runs. */
    const rules: Rules
    var state: GameState
    var player: Entity
    var enemies: seq<Entity>
    var projectiles: seq<Entity>
    var score: int

    /** The projectile list never holds more than MAX_BULLETS + 1 entries. */
    predicate Valid()
      reads this
    {
      |projectiles| <= MAX_BULLETS + 1
    }

    /** The globals as a value. */
    function Globals(): World
      reads this
    {
      World(Board(player, enemies, score), projectiles)
    }

    /** The program's start: the title screen, empty lists, and the
        zero-initialised globals. */
    constructor(rules: Rules)
      ensures this.rules == rules
      ensures Valid() && state == Title
      ensures enemies == [] && projectiles == [] && score == 0
      ensures player == Entity(false, false, 0, 0)
    {
      this.rules := rules;
      state := Title;
      player := Entity(false, false, 0, 0);
      enemies := [];
      projectiles := [];
      score := 0;
    }

    /** Space on the title screen: score 0, a new player, and the 24
        enemies appended row by row, enemy (row i, column j) at index
        6i + j and its delay from the (6i + j)-th roll. */
    method StartGame(rolls: nat -> nat)
      requires Valid()
      modifies this
      ensures Valid() && state == Game && score == 0
      ensures player == NewEntity(true, true, 0)
      ensures enemies == old(enemies) + Grid(rolls)
      ensures projectiles == old(projectiles)
    {
      score := 0;
      player := NewEntity(true, true, 0);
      ghost var pl := player;
      var i := 0;
      while i < ROWS
        invariant 0 <= i <= ROWS
        invariant enemies == old(enemies) + Grid(rolls)[..COLUMNS * i]
        invariant projectiles == old(projectiles) && score == 0 && player == pl
      {
        var j := 0;
        while j < COLUMNS
          invariant 0 <= j <= COLUMNS
          invariant enemies == old(enemies) + Grid(rolls)[..COLUMNS * i + j]
          invariant projectiles == old(projectiles) && score == 0 && player == pl
        {
          ghost var m := COLUMNS * i + j;
          GridSnoc(rolls, m);
          assert (old(enemies) + Grid(rolls)[..m]) + [Grid(rolls)[m]] == old(enemies) + (Grid(rolls)[..m] + [Grid(rolls)[m]]);
          enemies := enemies + [NewEntity(false, true, rolls(COLUMNS * i + j))];
          j := j + 1;
        }
        i := i + 1;
      }
      assert Grid(rolls)[..ENEMY_COUNT] == Grid(rolls);
      state := Game;
    }

    /** Escape on the game-over screen: both lists are emptied and the
        title is shown again. */
    method Reset()
      modifies this
      ensures Valid() && state == Title && enemies == [] && projectiles == []
      ensures player == old(player) && score == old(score)
    {
      enemies := [];
      projectiles := [];
      state := Title;
    }

    /** One polled event, with the keys held. */
    method HandleEvent(space: bool, escape: bool, rolls: nat -> nat)
      requires Valid()
      modifies this
      ensures Valid()
      ensures old(state) == Title && space ==>
                state == Game && enemies == old(enemies) + Grid(rolls) && score == 0 &&
                player == NewEntity(true, true, 0) && projectiles == old(projectiles)
      ensures old(state) == GameOver && escape ==>
                state == Title && enemies == [] && projectiles == [] &&
                player == old(player) && score == old(score)
      ensures !(old(state) == Title && space) && !(old(state) == GameOver && escape) ==>
                state == old(state) && enemies == old(enemies) &&
                projectiles == old(projectiles) && score == old(score) && player == old(player)
    {
      if state == Title {
        if space {
          StartGame(rolls);
        }
      } else if state == GameOver {
        if escape {
          Reset();
        }
      }
    }

    /** An append site: the oldest projectile is erased first when the list
        holds more than MAX_BULLETS. */
    method PushProjectile(p: Entity)
      requires Valid()
      modifies this
      ensures Valid()
      ensures projectiles == Capped(old(projectiles), p)
      ensures state == old(state) && player == old(player) && enemies == old(enemies)
      ensures score == old(score)
    {
      if |projectiles| > MAX_BULLETS {
        projectiles := projectiles[1..];
      }
      projectiles := projectiles + [p];
    }

    /** The up key in the game: the player fires only once its delay has
        run out, and each shot sets the delay back to 20. */
    method PlayerFire(up: bool)
      requires Valid()
      modifies this
      ensures Valid() && state == old(state)
      ensures Globals() == PlayerShoots(old(Globals()), up)
    {
      if up {
        if player.shootDelay <= 0 {
          PushProjectile(NewEntity(true, false, 0));
          player := player.(shootDelay := PLAYER_SHOOT_DELAY);
        }
      }
    }

    /** The `isFirst` loop: whether no living enemy stands in front of
        enemy `i`. As written the loop stops before index 0 (`prev > 0`);
        corrected it examines index 0 as well (`prev >= 0`). */
    method IsFirst(i: nat) returns (first: bool)
      requires i < |enemies|
      ensures first == Front(rules, enemies, i)
    {
      var lowest := if rules == AsWritten then 1 else 0;
      first := true;
      var prev := i - COLUMNS;
      while prev >= lowest
        invariant prev < i && (i - prev) % COLUMNS == 0
        invariant forall k :: lowest <= k && prev < k < i && (i - k) % COLUMNS == 0 ==> enemies[k].health <= 0
        decreases prev + COLUMNS
      {
        if enemies[prev].health > 0 {
          first := false;
          break;
        }
        prev := prev - COLUMNS;
      }
    }

    /** The turn of enemy `i` in the enemies' loop. */
    method EnemyAct(i: nat, elapsed: real, inp: EnemyInput)
      requires Valid() && i < |enemies|
      modifies this
      ensures Valid() && state == old(state)
      ensures Globals() == EnemyTurn(old(Globals()), rules, i, elapsed, inp)
    {
      if enemies[i].health > 0 {
        if inp.passed {
          player := player.(health := 0);
        }
        enemies := enemies[i := Update(enemies[i], elapsed)];
        if Collided(enemies[i], player, inp.touching) {
          player := player.(health := player.health - 1);
          enemies := enemies[i := enemies[i].(health := enemies[i].health - 1)];
          score := score + 1;
        }
        assert enemies == old(enemies)[i := enemies[i]];
        var first := IsFirst(i);
        if first {
          if enemies[i].shootDelay <= 0 {
            PushProjectile(NewEntity(false, false, 0));
            enemies := enemies[i := enemies[i].(shootDelay := HostileDelay(inp.roll))];
          }
        }
      }
    }

    /** The enemies' loop: the turns of all enemies, in index order. */
    method EnemiesAct(elapsed: real, inp: nat -> EnemyInput)
      requires Valid()
      modifies this
      ensures Valid() && state == old(state)
      ensures Globals() == EnemyTurns(old(Globals()), rules, elapsed, inp, |old(enemies)|)
    {
      var i := 0;
      while i < |enemies|
        invariant 0 <= i <= |enemies| == |old(enemies)|
        invariant Valid() && state == old(state)
        invariant Globals() == EnemyTurns(old(Globals()), rules, elapsed, inp, i)
      {
        EnemyAct(i, elapsed, inp(i));
        i := i + 1;
      }
    }

    /** The loop over the enemies inside the visit of projectile
        `projectileIndex`, the n-th visited: every living enemy it touches
        loses one health and scores one, and the projectile's health is set
        to 0. */
    method HitEnemies(projectileIndex: nat, n: nat, te: (nat, nat) -> bool)
      requires projectileIndex < |projectiles|
      modifies this
      ensures var p := old(projectiles[projectileIndex]);
              var k := StrikeCount(old(enemies), p, te, n);
              enemies == StrikeEnemies(old(enemies), p, te, n) && score == old(score) + k &&
              projectiles == old(projectiles)[projectileIndex := if k > 0 then p.(health := 0) else p]
      ensures state == old(state) && player == old(player)
    {
      ghost var es := enemies;
      ghost var p := projectiles[projectileIndex];
      ghost var count := 0;
      var j := 0;
      while j < |enemies|
        invariant 0 <= j <= |es| == |enemies|
        invariant forall k :: 0 <= k < j ==> enemies[k] == Strike(es[k], p, te(n, k))
        invariant forall k :: j <= k < |es| ==> enemies[k] == es[k]
        invariant count == StrikeCount(es[..j], p, te, n) && score == old(score) + count
        invariant projectiles == old(projectiles)[projectileIndex := if count > 0 then p.(health := 0) else p]
        invariant state == old(state) && player == old(player)
      {
        assert es[..j + 1][..j] == es[..j];
        assert StrikeCount(es[..j + 1], p, te, n) == count + (if Strikes(es[j], p, te(n, j)) then 1 else 0);
        if enemies[j].health > 0 {
          if Collided(enemies[j], projectiles[projectileIndex], te(n, j)) {
            enemies := enemies[j := enemies[j].(health := enemies[j].health - 1)];
            projectiles := projectiles[projectileIndex := projectiles[projectileIndex].(health := 0)];
            score := score + 1;
            count := count + 1;
          }
        }
        j := j + 1;
      }
      assert es[..j] == es;
      StrikeEnemiesAt(es, p, te, n);
    }

    /** The visit of projectile `projectileIndex`, the n-th visited, up to
        the expiry test: it ages, a touch costs the player one health and
        sets its health to 0, then it meets the enemies. */
    method VisitProjectile(projectileIndex: nat, n: nat, elapsed: real, tp: nat -> bool, te: (nat, nat) -> bool)
      requires projectileIndex < |projectiles|
      modifies this
      ensures var v := Visit(Board(old(player), old(enemies), old(score)), old(projectiles[projectileIndex]), elapsed, n, tp, te);
              Board(player, enemies, score) == v.0 && projectiles == old(projectiles)[projectileIndex := v.1]
      ensures state == old(state)
    {
      ghost var q := Aged(projectiles[projectileIndex], elapsed);
      projectiles := projectiles[projectileIndex := Update(projectiles[projectileIndex], elapsed)];
      projectiles := projectiles[projectileIndex :=
                       projectiles[projectileIndex].(health := TickDown(projectiles[projectileIndex].health, elapsed))];
      if Collided(projectiles[projectileIndex], player, tp(n)) {
        player := player.(health := player.health - 1);
        projectiles := projectiles[projectileIndex := projectiles[projectileIndex].(health := 0)];
      }
      StrikeSameSide(enemies, projectiles[projectileIndex], q, te, n);
      HitEnemies(projectileIndex, n, te);
    }

    /** The expiry loop: each projectile is visited once, and one whose
        health is then at most 0 is erased, the index stepping back so
        that the next one is not skipped. */
    method ExpireProjectiles(elapsed: real, tp: nat -> bool, te: (nat, nat) -> bool)
      requires Valid()
      modifies this
      ensures Valid() && state == old(state)
      ensures var r := Pass(Board(old(player), old(enemies), old(score)), old(projectiles), elapsed, tp, te);
              Board(player, enemies, score) == r.0 && projectiles == Kept(r.1)
    {
      ghost var b0 := Board(player, enemies, score);
      ghost var ps := projectiles;
      var n := 0;  // how many of the original projectiles have been visited
      var projectileIndex := 0;
      while projectileIndex < |projectiles|
        invariant Expiring(b0, ps, elapsed, tp, te, n, Board(player, enemies, score), projectiles, projectileIndex)
        invariant state == old(state)
        decreases |projectiles| - projectileIndex
      {
        ExpiringStep(b0, ps, elapsed, tp, te, n, Board(player, enemies, score), projectiles, projectileIndex);
        VisitProjectile(projectileIndex, n, elapsed, tp, te);
        if projectiles[projectileIndex].health <= 0 {
          projectiles := projectiles[..projectileIndex] + projectiles[projectileIndex + 1..];
          projectileIndex := projectileIndex - 1;
        }
        projectileIndex := projectileIndex + 1;
        n := n + 1;
      }
      ExpiringDone(b0, ps, elapsed, tp, te, n, Board(player, enemies, score), projectiles, projectileIndex);
    }

    /** The end-of-frame test. As written the game ends when the player's
        health is exactly 0; corrected, when it is at most 0. */
    method EndFrame()
      modifies this
      ensures state == (if Ends(rules, player.health, score) then GameOver else old(state))
      ensures player == old(player) && score == old(score)
      ensures enemies == old(enemies) && projectiles == old(projectiles)
    {
      var healthGone := if rules == AsWritten then player.health == 0 else player.health <= 0;
      if healthGone || score >= MAX_SCORE {
        state := GameOver;
      }
    }

    /** One frame of the game state: the player's shot and update, the
        enemies' turns, the projectiles' visits, the end-of-frame test.
        In the other states a frame only draws. */
    method GameFrame(up: bool, elapsed: real, ein: nat -> EnemyInput, tp: nat -> bool, te: (nat, nat) -> bool)
      requires Valid()
      modifies this
      ensures Valid()
      ensures old(state) == Game ==>
                Globals() == Frame(old(Globals()), rules, up, elapsed, ein, tp, te) &&
                state == (if Ends(rules, player.health, score) then GameOver else Game)
      ensures old(state) != Game ==> Globals() == old(Globals()) && state == old(state)
    {
      if state == Game {
        PlayerFire(up);
        player := Update(player, elapsed);
        EnemiesAct(elapsed, ein);
        ExpireProjectiles(elapsed, tp, te);
        EndFrame();
      }
    }
  }
}
