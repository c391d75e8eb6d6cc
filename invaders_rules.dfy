/** Space invaders: what one frame of the game state does to the globals,
    as functions of the old values and of what the frame's positions
    decide (the circle tests, whether an enemy has passed the player) and
    of the values `rand()` returns. The game loop's methods are proved to
    compute these functions; the lemmas here state what the functions
    keep. */
module InvadersRules {
  import opened InvadersEntity

  /** `player`, `enemies` and `score`. */
  datatype Board = Board(player: Entity, enemies: seq<Entity>, score: int)

  /** ... and `projectiles`. */
  datatype World = World(board: Board, projectiles: seq<Entity>)

  // ---------------------------------------------------------------------
  // The player's shot

  /** The up key: a shot when the delay has run out, the delay back at
      20. */
  function PlayerShoots(w: World, up: bool): World
  {
    if up && w.board.player.shootDelay <= 0 then
      World(w.board.(player := w.board.player.(shootDelay := PLAYER_SHOOT_DELAY)),
            Capped(w.projectiles, NewEntity(true, false, 0)))
    else w
  }

  // ---------------------------------------------------------------------
  // The enemies' turns

  /** For one enemy in one frame: whether it has passed below the player,
      whether it touches the player, and the value `rand()` returns if it
      fires. */
  datatype EnemyInput = EnemyInput(passed: bool, touching: bool, roll: nat)

  /** The turn of enemy `i`, skipped when it is dead: an enemy that has
      passed the player sets the player's health to 0; the enemy's delay
      runs down; touching the player costs both one health and scores one;
      at the front of its column (by the `rules` chosen) with its delay run
      out, it fires and draws a new delay. */
  function EnemyTurn(w: World, rules: Rules, i: nat, elapsed: real, inp: EnemyInput): (r: World)
    requires i < |w.board.enemies|
    ensures |r.board.enemies| == |w.board.enemies|
  {
    var b := w.board;
    var e := b.enemies[i];
    if e.health <= 0 then w
    else
      var pl := if inp.passed then b.player.(health := 0) else b.player;
      var moved := Update(e, elapsed);
      var hit := Collided(moved, pl, inp.touching);
      var e' := if hit then moved.(health := moved.health - 1) else moved;
      var b' := Board(if hit then pl.(health := pl.health - 1) else pl,
                      b.enemies[i := e'],
                      if hit then b.score + 1 else b.score);
      if Front(rules, b'.enemies, i) && e'.shootDelay <= 0 then
        World(b'.(enemies := b'.enemies[i := e'.(shootDelay := HostileDelay(inp.roll))]),
              Capped(w.projectiles, NewEntity(false, false, 0)))
      else
        World(b', w.projectiles)
  }

  /** The turns of enemies 0 .. n-1, in that order. */
  function EnemyTurns(w: World, rules: Rules, elapsed: real, inp: nat -> EnemyInput, n: nat): (r: World)
    requires n <= |w.board.enemies|
    ensures |r.board.enemies| == |w.board.enemies|
  {
    if n == 0 then w
    else EnemyTurn(EnemyTurns(w, rules, elapsed, inp, n - 1), rules, n - 1, elapsed, inp(n - 1))
  }

  // ---------------------------------------------------------------------
  // The projectiles' visits

  /** A living enemy the projectile `p` touches loses one health. */
  function Strike(e: Entity, p: Entity, touching: bool): Entity
  {
    if e.health > 0 && Collided(e, p, touching) then e.(health := e.health - 1) else e
  }

  /** Whether the projectile `p` strikes the enemy `e`. */
  predicate Strikes(e: Entity, p: Entity, touching: bool)
  {
    e.health > 0 && Collided(e, p, touching)
  }

  /** The inner loop over the enemies for the n-th projectile visited,
      `te(n, j)` the circle test against enemy j. */
  function StrikeEnemies(es: seq<Entity>, p: Entity, te: (nat, nat) -> bool, n: nat): seq<Entity>
  {
    if |es| == 0 then []
    else
      var j := |es| - 1;
      StrikeEnemies(es[..j], p, te, n) + [Strike(es[j], p, te(n, j))]
  }

  /** The number of enemies that loop strikes, each worth one point. */
  function StrikeCount(es: seq<Entity>, p: Entity, te: (nat, nat) -> bool, n: nat): nat
  {
    if |es| == 0 then 0
    else
      var j := |es| - 1;
      StrikeCount(es[..j], p, te, n) + (if Strikes(es[j], p, te(n, j)) then 1 else 0)
  }

  /** The projectile `p` after its own update: its delay and its health,
      the lifetime, run down by the frame time. */
  function Aged(p: Entity, elapsed: real): Entity
  {
    Update(p, elapsed).(health := TickDown(p.health, elapsed))
  }

  /** The visit of the n-th projectile: it ages; touching the player costs
      the player one health; it strikes the enemies it touches; a hit of
      either kind sets its health to 0. Returns the new board and the
      projectile as the visit leaves it. */
  function Visit(b: Board, p: Entity, elapsed: real, n: nat,
                 tp: nat -> bool, te: (nat, nat) -> bool): (Board, Entity)
  {
    var q := Aged(p, elapsed);
    var hitPlayer := Collided(q, b.player, tp(n));
    var k := StrikeCount(b.enemies, q, te, n);
    (Board(if hitPlayer then b.player.(health := b.player.health - 1) else b.player,
           StrikeEnemies(b.enemies, q, te, n),
           b.score + k),
     if hitPlayer || k > 0 then q.(health := 0) else q)
  }

  /** The visits of the projectiles `ps` in order: the final board and
      each projectile as its visit left it. */
  function Pass(b: Board, ps: seq<Entity>, elapsed: real,
                tp: nat -> bool, te: (nat, nat) -> bool): (Board, seq<Entity>)
  {
    if |ps| == 0 then (b, [])
    else
      var n := |ps| - 1;
      var r := Pass(b, ps[..n], elapsed, tp, te);
      var v := Visit(r.0, ps[n], elapsed, n, tp, te);
      (v.0, r.1 + [v.1])
  }

  /** One more projectile visited. */
  lemma PassSnoc(b: Board, ps: seq<Entity>, n: nat, elapsed: real, tp: nat -> bool, te: (nat, nat) -> bool)
    requires n < |ps|
    ensures var r := Pass(b, ps[..n], elapsed, tp, te);
            var v := Visit(r.0, ps[n], elapsed, n, tp, te);
            Pass(b, ps[..n + 1], elapsed, tp, te) == (v.0, r.1 + [v.1])
  {
    assert ps[..n + 1][..n] == ps[..n];
  }

  /** The state of the expiry loop after `n` visits of the projectiles
      `ps`: the board is that of the first `n` visits, and the list holds
      what they kept followed by the projectiles not yet visited, the
      index at the first of those. */
  ghost predicate Expiring(b0: Board, ps: seq<Entity>, elapsed: real, tp: nat -> bool, te: (nat, nat) -> bool,
                           n: int, b: Board, list: seq<Entity>, index: int)
  {
    0 <= n <= |ps| &&
    var r := Pass(b0, ps[..n], elapsed, tp, te);
    b == r.0 && list == Kept(r.1) + ps[n..] && index == |Kept(r.1)|
  }

  /** One turn of the expiry loop: the visit of the entry at `index`,
      the next of `ps`, then its erasure if its health is at most 0 with
      the index stepping back, and the index moving on. */
  lemma ExpiringStep(b0: Board, ps: seq<Entity>, elapsed: real, tp: nat -> bool, te: (nat, nat) -> bool,
                     n: int, b: Board, list: seq<Entity>, index: int)
    requires Expiring(b0, ps, elapsed, tp, te, n, b, list, index) && index < |list|
    ensures n < |ps| && 0 <= index && list[index] == ps[n]
    ensures var v := Visit(b, list[index], elapsed, n, tp, te);
            var list' := list[index := v.1];
            if v.1.health <= 0 then
              Expiring(b0, ps, elapsed, tp, te, n + 1, v.0, list'[..index] + list'[index + 1..], index)
            else
              Expiring(b0, ps, elapsed, tp, te, n + 1, v.0, list', index + 1)
  {
    var r := Pass(b0, ps[..n], elapsed, tp, te);
    var v := Visit(r.0, ps[n], elapsed, n, tp, te);
    PassSnoc(b0, ps, n, elapsed, tp, te);
    KeptAppend(r.1, v.1);
    Splice(Kept(r.1), ps[n..], v.1);
    assert ps[n..][1..] == ps[n + 1..];
  }

  /** When the index has reached the end of the list, every projectile has
      been visited. */
  lemma ExpiringDone(b0: Board, ps: seq<Entity>, elapsed: real, tp: nat -> bool, te: (nat, nat) -> bool,
                     n: int, b: Board, list: seq<Entity>, index: int)
    requires Expiring(b0, ps, elapsed, tp, te, n, b, list, index) && index >= |list|
    ensures var r := Pass(b0, ps, elapsed, tp, te);
            b == r.0 && list == Kept(r.1) && |list| <= |ps|
  {
    assert ps[..n] == ps;
    PassEffects(b0, ps, elapsed, tp, te);
    KeptAreAlive(Pass(b0, ps, elapsed, tp, te).1);
  }

  // ---------------------------------------------------------------------
  // One frame

  /** One frame of the game state: the player's shot and update, the
      enemies' turns, then the projectiles' visits and expiry. */
  function Frame(w: World, rules: Rules, up: bool, elapsed: real, ein: nat -> EnemyInput,
                 tp: nat -> bool, te: (nat, nat) -> bool): World
  {
    var w1 := PlayerShoots(w, up);
    var w2 := World(w1.board.(player := Update(w1.board.player, elapsed)), w1.projectiles);
    var w3 := EnemyTurns(w2, rules, elapsed, ein, |w2.board.enemies|);
    var r := Pass(w3.board, w3.projectiles, elapsed, tp, te);
    World(r.0, Kept(r.1))
  }

  // ---------------------------------------------------------------------
  // Properties of the enemies' turns

  /** Either version of the front-of-column test reads only the enemies
      before `i`. */
  lemma FrontIgnoresSelf(rules: Rules, es: seq<Entity>, i: nat, e: Entity)
    requires i < |es|
    ensures Front(rules, es[i := e], i) == Front(rules, es, i)
  {
    assert forall k :: 0 <= k < i ==> es[i := e][k] == es[k];
  }

  /** What the turn of enemy `i` keeps, `r` being the world after it. */
  ghost predicate TurnKeeps(w: World, r: World, i: nat)
    requires i < |w.board.enemies|
  {
    var b, b', e := w.board, r.board, w.board.enemies[i];
    |b'.enemies| == |b.enemies| &&
    (e.health <= 0 ==> r == w) &&
    (forall k :: 0 <= k < |b.enemies| && k != i ==> b'.enemies[k] == b.enemies[k]) &&
    b'.enemies[i].health <= e.health && b'.enemies[i].friendly == e.friendly &&
    b'.player.friendly == b.player.friendly &&
    b.score <= b'.score <= b.score + 1 &&
    (|w.projectiles| <= MAX_BULLETS + 1 ==> |r.projectiles| <= MAX_BULLETS + 1)
  }

  /** One enemy's turn changes only that enemy, never raises its health,
      scores at most one, keeps the projectile cap, and fires exactly when
      the enemy is alive, at the front of its column by the version of the
      rule chosen, and its delay has run out, drawing a delay of 80 to
      159. */
  lemma EnemyTurnEffects(w: World, rules: Rules, i: nat, elapsed: real, inp: EnemyInput)
    requires i < |w.board.enemies|
    ensures TurnKeeps(w, EnemyTurn(w, rules, i, elapsed, inp), i)
    ensures var r := EnemyTurn(w, rules, i, elapsed, inp);
            var e := w.board.enemies[i];
            var fires := e.health > 0 && Front(rules, w.board.enemies, i) && TickDown(e.shootDelay, elapsed) <= 0;
            (fires ==> r.projectiles == Capped(w.projectiles, NewEntity(false, false, 0)) &&
                       80 <= r.board.enemies[i].shootDelay <= 159) &&
            (!fires ==> r.projectiles == w.projectiles)
  {
    var b := w.board;
    var e := b.enemies[i];
    if e.health > 0 {
      var moved := Update(e, elapsed);
      var pl := if inp.passed then b.player.(health := 0) else b.player;
      var hit := Collided(moved, pl, inp.touching);
      var e' := if hit then moved.(health := moved.health - 1) else moved;
      FrontIgnoresSelf(rules, b.enemies, i, e');
    }
    CappedKeeps(w.projectiles, NewEntity(false, false, 0));
  }

  /** The shot that the loop as written lets through: on a fresh grid in
      which enemy 6 is ready to fire, enemy 6 fires past the living enemy
      0 in front of it under the rules as written, and holds its fire
      under the corrected rule. */
  lemma AsWrittenFiresThroughEnemyZero(w: World, rolls: nat -> nat, elapsed: real, inp: EnemyInput)
    requires w.board.enemies == Grid(rolls)[6 := Grid(rolls)[6].(shootDelay := 0)]
    requires 0.0 < elapsed < 1.0
    ensures EnemyTurn(w, AsWritten, 6, elapsed, inp).projectiles ==
            Capped(w.projectiles, NewEntity(false, false, 0))
    ensures EnemyTurn(w, Corrected, 6, elapsed, inp).projectiles == w.projectiles
  {
    var g := Grid(rolls);
    assert g[6] == NewEntity(false, true, rolls(6));
    AsWrittenIgnoresEnemyZero(rolls);
    FrontIgnoresSelf(AsWritten, g, 6, g[6].(shootDelay := 0));
    FrontIgnoresSelf(Corrected, g, 6, g[6].(shootDelay := 0));
    TickDownFrame(0, elapsed);
    EnemyTurnEffects(w, AsWritten, 6, elapsed, inp);
    EnemyTurnEffects(w, Corrected, 6, elapsed, inp);
  }

  /** An enemy that has passed the player and touches them in the same
      turn takes the player's health to -1, whatever it was: the test
      `player.health == 0` then lets the game go on. */
  lemma PassedAndTouchingGoesNegative(w: World, rules: Rules, i: nat, elapsed: real, inp: EnemyInput)
    requires i < |w.board.enemies| && w.board.enemies[i].health > 0
    requires w.board.player.friendly && !w.board.enemies[i].friendly
    requires inp.passed && inp.touching
    ensures EnemyTurn(w, rules, i, elapsed, inp).board.player.health == -1
    ensures GameEnds(EnemyTurn(w, rules, i, elapsed, inp).board.player.health,
                     EnemyTurn(w, rules, i, elapsed, inp).board.score)
    ensures EnemyTurn(w, rules, i, elapsed, inp).board.score < MAX_SCORE ==>
              !GameEndsAsWritten(EnemyTurn(w, rules, i, elapsed, inp).board.player.health,
                                 EnemyTurn(w, rules, i, elapsed, inp).board.score)
  {
  }

  /** What the turns of enemies 0 .. n-1 keep, `r` being the world after
      them. */
  ghost predicate TurnsKeep(w: World, r: World, n: nat)
  {
    var es, es' := w.board.enemies, r.board.enemies;
    |es'| == |es| &&
    (forall k :: 0 <= k < |es| ==>
       es'[k].health <= es[k].health && es'[k].friendly == es[k].friendly &&
       (es[k].health <= 0 || n <= k ==> es'[k] == es[k])) &&
    r.board.player.friendly == w.board.player.friendly &&
    w.board.score <= r.board.score <= w.board.score + n &&
    (|w.projectiles| <= MAX_BULLETS + 1 ==> |r.projectiles| <= MAX_BULLETS + 1)
  }

  lemma {:induction false} EnemyTurnsEffects(w: World, rules: Rules, elapsed: real, inp: nat -> EnemyInput, n: nat)
    requires n <= |w.board.enemies|
    ensures TurnsKeep(w, EnemyTurns(w, rules, elapsed, inp, n), n)
  {
    if n > 0 {
      EnemyTurnsEffects(w, rules, elapsed, inp, n - 1);
      var v := EnemyTurns(w, rules, elapsed, inp, n - 1);
      EnemyTurnEffects(v, rules, n - 1, elapsed, inp(n - 1));
      TurnsKeepStep(w, v, EnemyTurn(v, rules, n - 1, elapsed, inp(n - 1)), n);
    }
  }

  /** What the first n - 1 turns keep and what turn n - 1 keeps make up
      what the first n turns keep. */
  lemma TurnsKeepStep(w: World, v: World, r: World, n: nat)
    requires 0 < n <= |w.board.enemies| == |v.board.enemies|
    requires TurnsKeep(w, v, n - 1) && TurnKeeps(v, r, n - 1)
    ensures TurnsKeep(w, r, n)
  {
  }

  // ---------------------------------------------------------------------
  // Properties of the projectiles' visits

  /** The inner loop treats each enemy on its own. */
  lemma {:induction false} StrikeEnemiesAt(es: seq<Entity>, p: Entity, te: (nat, nat) -> bool, n: nat)
    ensures |StrikeEnemies(es, p, te, n)| == |es|
    ensures forall k :: 0 <= k < |es| ==> StrikeEnemies(es, p, te, n)[k] == Strike(es[k], p, te(n, k))
  {
    if |es| > 0 {
      var j := |es| - 1;
      StrikeEnemiesAt(es[..j], p, te, n);
      assert forall k :: 0 <= k < j ==> es[..j][k] == es[k];
    }
  }

  /** The loop scores at most one per enemy, and nothing exactly when it
      strikes no enemy. */
  lemma {:induction false} StrikeCountBounds(es: seq<Entity>, p: Entity, te: (nat, nat) -> bool, n: nat)
    ensures StrikeCount(es, p, te, n) <= |es|
    ensures StrikeCount(es, p, te, n) == 0 <==> forall k :: 0 <= k < |es| ==> !Strikes(es[k], p, te(n, k))
  {
    if |es| > 0 {
      var j := |es| - 1;
      StrikeCountBounds(es[..j], p, te, n);
      assert forall k :: 0 <= k < j ==> es[..j][k] == es[k];
    }
  }

  /** Only the projectile's side matters to the loop, not its health. */
  lemma {:induction false} StrikeSameSide(es: seq<Entity>, p: Entity, p': Entity, te: (nat, nat) -> bool, n: nat)
    requires p.friendly == p'.friendly
    ensures StrikeEnemies(es, p, te, n) == StrikeEnemies(es, p', te, n)
    ensures StrikeCount(es, p, te, n) == StrikeCount(es, p', te, n)
  {
    if |es| > 0 {
      StrikeSameSide(es[..|es| - 1], p, p', te, n);
    }
  }

  /** An enemy's projectile never strikes an enemy: among hostile enemies
      it changes nothing and scores nothing. */
  lemma HostileShotSparesEnemies(es: seq<Entity>, p: Entity, te: (nat, nat) -> bool, n: nat)
    requires !p.friendly && forall k :: 0 <= k < |es| ==> !es[k].friendly
    ensures StrikeEnemies(es, p, te, n) == es && StrikeCount(es, p, te, n) == 0
  {
    StrikeEnemiesAt(es, p, te, n);
    StrikeCountBounds(es, p, te, n);
  }

  /** When the projectile touches no enemy, the inner loop changes
      nothing and scores nothing. */
  lemma StrikeNone(es: seq<Entity>, p: Entity, te: (nat, nat) -> bool, n: nat)
    requires forall j: nat :: !te(n, j)
    ensures StrikeEnemies(es, p, te, n) == es && StrikeCount(es, p, te, n) == 0
  {
    StrikeEnemiesAt(es, p, te, n);
    StrikeCountBounds(es, p, te, n);
  }

  /** What a visit keeps, `v` being its result. */
  ghost predicate VisitKeeps(b: Board, p: Entity, elapsed: real, v: (Board, Entity))
  {
    var q := Aged(p, elapsed);
    (v.1 == q || v.1 == q.(health := 0)) &&
    (v.0.player == b.player || v.0.player == b.player.(health := b.player.health - 1)) &&
    (p.friendly == b.player.friendly ==> v.0.player == b.player) &&
    |v.0.enemies| == |b.enemies| &&
    (forall k :: 0 <= k < |b.enemies| ==>
       v.0.enemies[k].health <= b.enemies[k].health && v.0.enemies[k].friendly == b.enemies[k].friendly &&
       (b.enemies[k].health <= 0 ==> v.0.enemies[k] == b.enemies[k])) &&
    b.score <= v.0.score <= b.score + |b.enemies|
  }

  /** A visit leaves the projectile aged, its health set to 0 if it hit
      anything; the player loses at most one health and never to their
      own side's shot; each enemy is struck at most once, and only while
      alive; the score rises by at most the number of enemies. */
  lemma VisitEffects(b: Board, p: Entity, elapsed: real, n: nat, tp: nat -> bool, te: (nat, nat) -> bool)
    ensures VisitKeeps(b, p, elapsed, Visit(b, p, elapsed, n, tp, te))
    ensures forall k :: 0 <= k < |b.enemies| ==>
              Visit(b, p, elapsed, n, tp, te).0.enemies[k] == Strike(b.enemies[k], Aged(p, elapsed), te(n, k))
  {
    StrikeEnemiesAt(b.enemies, Aged(p, elapsed), te, n);
    StrikeCountBounds(b.enemies, Aged(p, elapsed), te, n);
  }

  /** What the visits of the projectiles `ps` keep, `r` being their
      result. */
  ghost predicate PassKeeps(b: Board, ps: seq<Entity>, elapsed: real, r: (Board, seq<Entity>))
  {
    var es, es' := b.enemies, r.0.enemies;
    |r.1| == |ps| &&
    (forall k :: 0 <= k < |ps| ==> r.1[k] == Aged(ps[k], elapsed) || r.1[k] == Aged(ps[k], elapsed).(health := 0)) &&
    |es'| == |es| &&
    (forall k :: 0 <= k < |es| ==>
       es'[k].health <= es[k].health && es'[k].friendly == es[k].friendly &&
       (es[k].health <= 0 ==> es'[k] == es[k])) &&
    r.0.player.friendly == b.player.friendly &&
    b.score <= r.0.score
  }

  /** The visits of all projectiles: one result per projectile, aged and
      on its own side, with its lifetime run down or set to 0; enemies
      never gain health, dead ones stay as they were, and no one changes
      side; the score never drops. */
  lemma {:induction false} PassEffects(b: Board, ps: seq<Entity>, elapsed: real,
                                       tp: nat -> bool, te: (nat, nat) -> bool)
    ensures PassKeeps(b, ps, elapsed, Pass(b, ps, elapsed, tp, te))
  {
    if |ps| > 0 {
      var n := |ps| - 1;
      PassEffects(b, ps[..n], elapsed, tp, te);
      var r := Pass(b, ps[..n], elapsed, tp, te);
      VisitEffects(r.0, ps[n], elapsed, n, tp, te);
      assert forall k :: 0 <= k < n ==> ps[..n][k] == ps[k];
    }
  }

  /** When nothing touches anything, the visits change no board value and
      each projectile only ages. */
  lemma {:induction false} PassUntouched(b: Board, ps: seq<Entity>, elapsed: real,
                                         tp: nat -> bool, te: (nat, nat) -> bool)
    requires forall n: nat :: !tp(n)
    requires forall n: nat, j: nat :: !te(n, j)
    ensures Pass(b, ps, elapsed, tp, te).0 == b
    ensures |Pass(b, ps, elapsed, tp, te).1| == |ps|
    ensures forall k :: 0 <= k < |ps| ==> Pass(b, ps, elapsed, tp, te).1[k] == Aged(ps[k], elapsed)
  {
    if |ps| > 0 {
      var n := |ps| - 1;
      var r := Pass(b, ps[..n], elapsed, tp, te);
      PassUntouched(b, ps[..n], elapsed, tp, te);
      assert r.0 == b;
      StrikeNone(b.enemies, Aged(ps[n], elapsed), te, n);
      assert Visit(b, ps[n], elapsed, n, tp, te) == (b, Aged(ps[n], elapsed));
      assert Pass(b, ps, elapsed, tp, te) == (b, r.1 + [Aged(ps[n], elapsed)]);
      assert forall k :: 0 <= k < n ==> ps[..n][k] == ps[k];
    }
  }

  // ---------------------------------------------------------------------
  // Properties of a frame

  /** A frame keeps the projectile cap and leaves only live projectiles;
      it keeps the number of enemies and every side, never raises an
      enemy's health, leaves dead enemies alone, and never lowers the
      score. */
  lemma FrameEffects(w: World, rules: Rules, up: bool, elapsed: real, ein: nat -> EnemyInput,
                     tp: nat -> bool, te: (nat, nat) -> bool)
    requires |w.projectiles| <= MAX_BULLETS + 1
    ensures var r := Frame(w, rules, up, elapsed, ein, tp, te);
            var es, es' := w.board.enemies, r.board.enemies;
            |r.projectiles| <= MAX_BULLETS + 1 &&
            (forall j :: 0 <= j < |r.projectiles| ==> r.projectiles[j].health > 0) &&
            |es'| == |es| &&
            (forall k :: 0 <= k < |es| ==>
               es'[k].health <= es[k].health && es'[k].friendly == es[k].friendly &&
               (es[k].health <= 0 ==> es'[k] == es[k])) &&
            r.board.player.friendly == w.board.player.friendly &&
            w.board.score <= r.board.score
  {
    var w1 := PlayerShoots(w, up);
    CappedKeeps(w.projectiles, NewEntity(true, false, 0));
    var w2 := World(w1.board.(player := Update(w1.board.player, elapsed)), w1.projectiles);
    var w3 := EnemyTurns(w2, rules, elapsed, ein, |w2.board.enemies|);
    EnemyTurnsEffects(w2, rules, elapsed, ein, |w2.board.enemies|);
    var r := Pass(w3.board, w3.projectiles, elapsed, tp, te);
    PassEffects(w3.board, w3.projectiles, elapsed, tp, te);
    KeptAreAlive(r.1);
    KeptHealthy(r.1);
  }
}
