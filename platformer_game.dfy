/** The discrete part of the platformer's main loop: the title / game /
    game-over state machine, the fixed-timestep accumulator and the
    player's run animation. Time is counted in integer units of 10^-8
    seconds, in which the fixed step 0.01666666 s is exactly 1666666. */
module PlatformerGame {
  import opened PlatformerTiles
  import opened PlatformerMap
  import opened PlatformerLevel

  datatype GameState = Title | Game | GameOver

  /** Units of time per second. */
  const UNITS_PER_SECOND := 100_000_000
  /** FIXED_TIMESTEP. */
  const FIXED_TIMESTEP := 1_666_666
  /** MAX_TIMESTEPS is defined by the program but never used: the
      accumulator loop has no cap. */
  const MAX_TIMESTEPS := 6
  const FRAMES_PER_SECOND := 30
  /** playerRunAnimation and numFrames. */
  const PLAYER_RUN_ANIMATION: seq<int> := [17, 18, 19, 20, 21]
  const NUM_FRAMES := 5
  /** The frame shown while the player stands still. */
  const STANDING_INDEX := 4
  /** ENTITY_SPRITE_COUNT_X and ENTITY_SPRITE_COUNT_Y. */
  const SPRITE_COLUMNS := 8
  const SPRITE_ROWS := 4

  // ---------------------------------------------------------------------
  // State machine

  /** What one polled event does to the state, given whether space and
      escape are held. */
  function NextState(s: GameState, space: bool, escape: bool): GameState
  {
    match s
    case Title => if space then Game else Title
    case Game => Game
    case GameOver => if escape then Title else GameOver
  }

  /** Events change the state only from the title on space, to the game,
      and from game over on escape, to the title; they never end a game. */
  lemma EventTransitions(s: GameState, space: bool, escape: bool)
    ensures var t := NextState(s, space, escape);
            (t != s <==> (s == Title && space) || (s == GameOver && escape)) &&
            (s == Title && space ==> t == Game) &&
            (s == GameOver && escape ==> t == Title) &&
            (s == Game ==> t == Game)
  {
  }

  // ---------------------------------------------------------------------
  // Animation

  /** `animationElapsed` and `currentIndex`. */
  datatype Anim = Anim(elapsed: int, index: int)

  /** The animation part of one fixed step: the elapsed time grows by the
      step, and once it exceeds 1/30 s the index moves on (wrapping after
      the last frame) while walking, or is set to the standing frame while
      standing, and the elapsed time restarts from 0. */
  function AnimStep(a: Anim, walking: bool): Anim
  {
    var e := a.elapsed + FIXED_TIMESTEP;
    if e * FRAMES_PER_SECOND > UNITS_PER_SECOND then
      var i := if walking then (if a.index + 1 > NUM_FRAMES - 1 then 0 else a.index + 1)
               else STANDING_INDEX;
      Anim(0, i)
    else Anim(e, a.index)
  }

  /** `n` fixed steps with the same walking flag. */
  function AnimAfter(a: Anim, n: nat, walking: bool): Anim
  {
    if n == 0 then a else AnimStep(AnimAfter(a, n - 1, walking), walking)
  }

  /** The index is a valid frame and the elapsed time has not passed the
      frame period. */
  predicate AnimOk(a: Anim)
  {
    0 <= a.index < NUM_FRAMES && 0 <= a.elapsed && a.elapsed * FRAMES_PER_SECOND <= UNITS_PER_SECOND
  }

  /** One step keeps the index in range, so `playerRunAnimation[currentIndex]`
      is always in bounds. */
  lemma AnimStepOk(a: Anim, walking: bool)
    requires AnimOk(a)
    ensures AnimOk(AnimStep(a, walking))
  {
  }

  lemma {:induction false} AnimAfterOk(a: Anim, n: nat, walking: bool)
    requires AnimOk(a)
    ensures AnimOk(AnimAfter(a, n, walking))
  {
    if n > 0 {
      AnimAfterOk(a, n - 1, walking);
      AnimStepOk(AnimAfter(a, n - 1, walking), walking);
    }
  }

  /** The frame that follows `i` while walking. */
  function NextFrame(i: int): int
  {
    if i + 1 > NUM_FRAMES - 1 then 0 else i + 1
  }

  /** With the elapsed time at 0, the frame changes on every third step:
      the first two steps only add time, the third moves to the next frame
      while walking or to the standing frame while standing. */
  lemma EveryThirdStep(i: int, walking: bool)
    ensures AnimAfter(Anim(0, i), 1, walking) == Anim(FIXED_TIMESTEP, i)
    ensures AnimAfter(Anim(0, i), 2, walking) == Anim(2 * FIXED_TIMESTEP, i)
    ensures AnimAfter(Anim(0, i), 3, walking) == Anim(0, if walking then NextFrame(i) else STANDING_INDEX)
  {
  }

  /** Walking through all frames: after five frame changes the index is
      back where it started. */
  lemma WalkCycle(i: int)
    requires 0 <= i < NUM_FRAMES
    ensures NextFrame(NextFrame(NextFrame(NextFrame(NextFrame(i))))) == i
  {
  }

  /** The sprite-sheet cell of the frame at `index`: column and row of
      `playerRunAnimation[index]` in the 8-by-4 sheet. */
  function SpriteCell(index: int): (cell: (int, int))
    requires 0 <= index < NUM_FRAMES
    ensures 1 <= cell.0 <= 5 && cell.1 == 2
  {
    (PLAYER_RUN_ANIMATION[index] % SPRITE_COLUMNS, PLAYER_RUN_ANIMATION[index] / SPRITE_COLUMNS)
  }

  // ---------------------------------------------------------------------
  // Falling out during the fixed steps

  /** The out-of-bounds check of the player's update fires at one of the
      first `n` steps, `stepY(k)` being the player's world y at step k. */
  predicate FallsWithin(stepY: nat -> int, n: nat)
  {
    n > 0 && (FallsWithin(stepY, n - 1) || FellOut(stepY(n - 1)))
  }

  lemma {:induction false} FallsWithinExists(stepY: nat -> int, n: nat)
    ensures FallsWithin(stepY, n) <==> exists k :: 0 <= k < n && FellOut(stepY(k))
  {
    if n > 0 {
      FallsWithinExists(stepY, n - 1);
      if FellOut(stepY(n - 1)) {
        assert exists k :: 0 <= k < n && FellOut(stepY(k)) by {
          assert 0 <= n - 1 < n && FellOut(stepY(n - 1));
        }
      }
    }
  }

  /** Quotient and remainder are unique: a count of whole steps with less
      than a step left over is the quotient. */
  lemma StepsQuotient(t: nat, q: nat, r: int)
    requires q * FIXED_TIMESTEP + r == t && 0 <= r < FIXED_TIMESTEP
    ensures q == t / FIXED_TIMESTEP && r == t % FIXED_TIMESTEP
  {
  }

  // ---------------------------------------------------------------------
  // The loop

  /** The platformer's globals: `state`, `accumulator`, `animationElapsed`,
      `currentIndex`, and the level the map file is loaded into. */
  class Platformer {
    var state: GameState
    var accumulator: int
    var animationElapsed: int
    var currentIndex: int
    const level: Level

    /** The accumulator holds less than one step and the animation is in
        range. */
    predicate Ticking()
      reads this
    {
      0 <= accumulator < FIXED_TIMESTEP && AnimOk(Anim(animationElapsed, currentIndex))
    }

    /** ... and the level is consistent. */
    ghost predicate Valid()
      reads this, level, level.levelData
    {
      Ticking() && level.Valid()
    }

    /** The start of the program: the title screen, nothing accumulated,
        the first frame, no map loaded. */
    constructor()
      ensures Valid() && state == Title && accumulator == 0
      ensures animationElapsed == 0 && currentIndex == 0
      ensures level.state == LevelState(0, 0, [], None, None)
    {
      state := Title;
      accumulator := 0;
      animationElapsed := 0;
      currentIndex := 0;
      level := new Level();
    }

    /** One polled event, with the keys held and the lines of `map.txt`:
        space on the title screen loads the map and starts the game,
        unless the loader met a bad size and ended the program (`ended`);
        a rejected header still starts the game. Escape on the game-over
        screen returns to the title. */
    method HandleEvent(space: bool, escape: bool, mapLines: seq<string>) returns (ended: bool)
      requires Valid()
      modifies this, level, level.levelData
      ensures Valid()
      ensures ended <==> old(state) == Title && space && Scene(mapLines, 0, old(level.state)).outcome == Aborted
      ensures state == (if ended then old(state) else NextState(old(state), space, escape))
      ensures accumulator == old(accumulator) && animationElapsed == old(animationElapsed)
      ensures currentIndex == old(currentIndex)
      ensures old(state) == Title && space ==>
                level.state == Scene(mapLines, 0, old(level.state)).state
      ensures !(old(state) == Title && space) ==> level.state == old(level.state)
    {
      ended := false;
      if state == Title {
        if space {
          var outcome := level.SetupScene(mapLines);
          if outcome == Aborted {
            return true;
          }
          state := Game;
        }
      } else if state == Game {
      } else if state == GameOver {
        if escape {
          state := Title;
        }
      }
    }

    /** The fixed-update part of a frame in the game state: `elapsed` is
        the frame time, `walking` whether left or right is held,
        `(px, py)` and `(kx, ky)` the player's and the king's positions
        for the win check, and `stepY(k)` the player's y at fixed step k.
        Returns the number of fixed steps taken. Outside the game state a
        frame draws only. */
    method Frame(elapsed: nat, walking: bool, px: int, py: int, kx: int, ky: int, stepY: nat -> int)
      returns (steps: nat)
      requires Ticking()
      modifies this
      ensures Ticking()
      ensures old(state) != Game ==>
                steps == 0 && state == old(state) && accumulator == old(accumulator) &&
                animationElapsed == old(animationElapsed) && currentIndex == old(currentIndex)
      ensures old(state) == Game ==>
                var t := elapsed + old(accumulator);
                steps * FIXED_TIMESTEP + accumulator == t &&
                steps == t / FIXED_TIMESTEP &&
                Anim(animationElapsed, currentIndex) ==
                  AnimAfter(Anim(old(animationElapsed), old(currentIndex)), steps, walking) &&
                state == (if Overlap(px, py, kx, ky) || FallsWithin(stepY, steps) then GameOver else Game)
    {
      steps := 0;
      if state != Game {
        return;
      }
      // win condition
      if Overlap(px, py, kx, ky) {
        state := GameOver;
      }
      var t := elapsed + accumulator;
      if t < FIXED_TIMESTEP {
        accumulator := t;
        return;
      }
      ghost var a0 := Anim(animationElapsed, currentIndex);
      ghost var s0 := state;
      while t >= FIXED_TIMESTEP
        invariant 0 <= t
        invariant steps * FIXED_TIMESTEP + t == elapsed + old(accumulator)
        invariant Anim(animationElapsed, currentIndex) == AnimAfter(a0, steps, walking)
        invariant AnimOk(Anim(animationElapsed, currentIndex))
        invariant state == (if s0 == GameOver || FallsWithin(stepY, steps) then GameOver else Game)
      {
        // the player's update: the out-of-bounds check
        if FellOut(stepY(steps)) {
          state := GameOver;
        }
        // animation
        AnimStepOk(Anim(animationElapsed, currentIndex), walking);
        animationElapsed := animationElapsed + FIXED_TIMESTEP;
        if animationElapsed * FRAMES_PER_SECOND > UNITS_PER_SECOND {
          if walking {
            currentIndex := currentIndex + 1;
            if currentIndex > NUM_FRAMES - 1 {
              currentIndex := 0;
            }
          } else {
            currentIndex := STANDING_INDEX;
          }
          animationElapsed := 0;
        }
        t := t - FIXED_TIMESTEP;
        steps := steps + 1;
      }
      accumulator := t;
      StepsQuotient(elapsed + old(accumulator), steps, t);
    }
  }
}
