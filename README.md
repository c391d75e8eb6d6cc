# Two game prototypes: the platformer's level loader and tick loop, and the space-invaders bookkeeping

This project models, in Dafny, the discrete logic of two of the student game
prototypes in the repository.

**The platformer (HW4).** `setupScene` reads `map.txt` section by section:
- `[header]`: `width=` and `height=` lines, which allocate `levelData`;
- `[layer]`: a `data=` line followed by `mapHeight` rows of comma-separated,
  1-based tile numbers;
- `[Object Layer 1]`: `type=` and `location=x,y` lines, handed to
  `placeEntity`.

Around the loader it models the solid-tile test, the world-to-tile
conversion with the out-of-bounds check, the box overlap test that wins the
game, the title / game / game-over state machine, the fixed-timestep
accumulator and the run animation.

**The space-invaders clone (HW3).** It models:
- the `Entity` constructor's rules for health and shoot delay;
- the same-side exclusion of `collided`;
- the bounded projectile buffer, which erases the oldest projectile before an
  append once it holds more than `MAX_BULLETS`;
- the integer counters that the frame time runs down;
- the enemies' loop with the front-of-column firing rule;
- the end-of-frame game-over test.
- the projectiles' loop, which erases dead projectiles by stepping the index
  back;
- the enemy grid setup and the reset.

Two HW3 tests are modelled in two versions, chosen by a `Rules` value:
- `AsWritten` is the code: the front-of-column loop stops before index 0,
  and the game ends only at health exactly 0.
- `Corrected` is the evidently intended rule: the loop examines index 0,
  and the game ends at any health at or below 0.

The enemies' turns, the frame and the class `Invaders` take the version as a
parameter; every lemma about them holds for both. See Findings.

Modules:
- `LineText`: `getline` on a line stream, `key=value` splitting, and `atoi`.
- `PlatformerTiles`: tile codes, `isSolid`, world-to-tile conversion in
  integer tenths of a world unit, and the spawn points.
- `PlatformerMap`: the loader as functions over the file's lines, with the
  loader's globals as one value.
- `PlatformerLevel`: class `Level`. Its methods run the loader's loops over
  the same lines. They fill a 2-D array in place and are proved to reach the
  state the `PlatformerMap` functions give.
- `PlatformerGame`: the state machine and the animation as functions, and
  class `Platformer`, whose methods are the event handling and the
  fixed-step loop.
- `InvadersEntity`: the entity record, the constructor rules, the buffer
  cap, truncation of the counters, the filter of live projectiles, the
  enemy grid and the end-of-game test.
- `InvadersRules`: one frame of the game as functions over the globals.
- `InvadersGame`: class `Invaders`, with the globals as fields. Its methods
  are the loops of `main`, each proved equal to the function of
  `InvadersRules` it implements.

**Units.**
- Platformer time is an integer count of 10^-8 s, so `FIXED_TIMESTEP`
  (0.01666666 s) is exactly 1666666.
- Platformer world positions are integer tenths, so the tile size 0.2 is 2.
- HW3 frame times are exact reals. An `int` counter decremented by a float
  (`shootDelay -= elapsed`, `health -= 1.0f * elapsed`) is truncated toward
  zero, as C++ does when converting back to `int`.

**Solid tiles.** The platformer's `isSolid` accepts exactly the codes 4, 5,
48 and 75. The dungeon crawler's `isSolid`, which accepts code ranges
(Final Project/NYUCodebase/NYUCodebase/main.cpp:304-311), is not part of
this model.

## Model

| member | source | states |
|---|---|---|
| LineText.Split | HW4/NYUCodebase/NYUCodebase/main.cpp:441-445 | The fields of a line between delimiters: always at least one, none containing the delimiter |
| LineText.JoinSplit | HW4/NYUCodebase/NYUCodebase/main.cpp:441-445 | Gluing the fields back together with the delimiter gives the line again |
| LineText.SplitJoin | HW4/NYUCodebase/NYUCodebase/main.cpp:441-445 | Fields without the delimiter, joined and split again, are the same fields |
| LineText.GetLineSplit | HW4/NYUCodebase/NYUCodebase/main.cpp:407-408 | One `getline`: on a live stream it yields the next field and is exhausted after the last; on an exhausted stream `field` keeps its value |
| LineText.FieldsReadSplit | HW4/NYUCodebase/NYUCodebase/main.cpp:444-445 | After n reads the stream is past n fields and the variable holds field n-1, or the last field once the line ran out |
| LineText.FieldsReadField | HW4/NYUCodebase/NYUCodebase/main.cpp:444-445 | Read number x of a row leaves field x, or the last field when the row is shorter than the map |
| LineText.KeyValueGetLine | HW4/NYUCodebase/NYUCodebase/main.cpp:405-408 | The key and the value are the two `getline` calls on a fresh stream over the line |
| LineText.KeyValueOf | HW4/NYUCodebase/NYUCodebase/main.cpp:405-408 | `key=value` splits back into that key and that value |
| LineText.KeyOfPlain | HW4/NYUCodebase/NYUCodebase/main.cpp:405-408 | A line without `=` is all key, with an empty value |
| LineText.SkipSpaceSuffix | HW4/NYUCodebase/NYUCodebase/main.cpp:446 | `atoi` skips exactly the leading white space |
| LineText.DigitsPrefix | HW4/NYUCodebase/NYUCodebase/main.cpp:446 | `atoi` reads the longest run of digits at the front, and nothing after it |
| LineText.Decimal | HW4/NYUCodebase/NYUCodebase/main.cpp:446 | The decimal spelling of a number is a non-empty string of digits |
| LineText.DecimalValueOfDecimal | HW4/NYUCodebase/NYUCodebase/main.cpp:446 | The digits of a number have that number as their value |
| LineText.AtoiDecimal | HW4/NYUCodebase/NYUCodebase/main.cpp:411 | `atoi` reads back what a decimal spelling writes |
| LineText.AtoiNegative | HW4/NYUCodebase/NYUCodebase/main.cpp:411 | `atoi` of `-` followed by a spelling is the negated number |
| LineText.AtoiNoNumber | HW4/NYUCodebase/NYUCodebase/main.cpp:493-494 | Text that starts with no space, sign or digit reads as 0 |
| PlatformerTiles.TileCode | HW4/NYUCodebase/NYUCodebase/main.cpp:446-453 | A stored tile code lies in [0, 254], and it is 0 exactly when the `unsigned char` value is 0 or 1 |
| PlatformerTiles.TileCodeOfDecimal | HW4/NYUCodebase/NYUCodebase/main.cpp:446-453 | The 1-based number written for code c is stored as c |
| PlatformerTiles.SolidFieldValues | HW4/NYUCodebase/NYUCodebase/main.cpp:284-286 | A field gives a solid tile exactly when its value modulo 256 is 5, 6, 49 or 76, which are the 1-based numbers of 4, 5, 48 and 75 |
| PlatformerTiles.TruncDiv | HW4/NYUCodebase/NYUCodebase/main.cpp:279-282 | The `(int)` cast of a quotient truncates toward zero, for both signs |
| PlatformerTiles.PlayerSpawnCell | HW4/NYUCodebase/NYUCodebase/main.cpp:461-464 | The player spawned on a cell is mapped back to that column and has that row under its feet |
| PlatformerTiles.KingSpawnCell | HW4/NYUCodebase/NYUCodebase/main.cpp:466-468 | The king spawned on a cell is mapped back to that cell |
| PlatformerTiles.SpawnFellOut | HW4/NYUCodebase/NYUCodebase/main.cpp:220-231 | The out-of-bounds check fires at once exactly for a player spawned in row 44 or below |
| PlatformerTiles.SameCellSpawnOverlaps | HW4/NYUCodebase/NYUCodebase/main.cpp:254-258 | A player and a king spawned on the same cell overlap |
| PlatformerTiles.OverlapSymmetric | HW4/NYUCodebase/NYUCodebase/main.cpp:254-258 | The overlap test does not depend on which entity calls it |
| PlatformerMap.ScanHeader | HW4/NYUCodebase/NYUCodebase/main.cpp:402-416 | The header loop leaves the stream within the file, no earlier than where it started |
| PlatformerMap.BlockEnd | HW4/NYUCodebase/NYUCodebase/main.cpp:402-403 | The index of the first blank line, or the end of the file: every line before it is non-empty |
| PlatformerMap.LastValueNone | HW4/NYUCodebase/NYUCodebase/main.cpp:402-416 | No value is found exactly when no line of the block has the key |
| PlatformerMap.LastValueSome | HW4/NYUCodebase/NYUCodebase/main.cpp:402-416 | A value found belongs to a line with the key that no later line of the block overrides |
| PlatformerMap.ScanHeaderLast | HW4/NYUCodebase/NYUCodebase/main.cpp:400-416 | Width and height are set by the last line with their key before the first blank line; other keys change nothing; the stream stops after the blank line |
| PlatformerMap.HeaderOutcome | HW4/NYUCodebase/NYUCodebase/main.cpp:418-427 | `readHeader` rejects exactly when a size is still -1. It accepts exactly when neither is -1, the height is not negative, and the width is not negative once there are rows. Every other case is a size `new` cannot allocate |
| PlatformerMap.HeaderRejectedIff | HW4/NYUCodebase/NYUCodebase/main.cpp:400-420 | `readHeader` returns false exactly when the block has no `width=` line or no `height=` line, or the last such line reads as -1 |
| PlatformerMap.Blank | HW4/NYUCodebase/NYUCodebase/main.cpp:421-426 | The allocation gives `mapHeight` rows of `mapWidth` cells |
| PlatformerMap.ScanLayer | HW4/NYUCodebase/NYUCodebase/main.cpp:430-457 | A remembered `data=` line is kept, and its rows fit in what was consumed |
| PlatformerMap.ScanLayerLast | HW4/NYUCodebase/NYUCodebase/main.cpp:430-457 | The layer loop either meets no `data=` line before its blank line and keeps what it had, or remembers a `data=` line of the block with no `data=` line between the end of its rows and the blank line. Either way it stops just after that blank line |
| PlatformerMap.DecodeRow | HW4/NYUCodebase/NYUCodebase/main.cpp:444-454 | A row is decoded into `mapWidth` cells, cell x being the code of the x-th field read |
| PlatformerMap.DecodeRows | HW4/NYUCodebase/NYUCodebase/main.cpp:439-455 | `mapHeight` rows of `mapWidth` codes, all in [0, 254] |
| PlatformerMap.DecodeRowsAt | HW4/NYUCodebase/NYUCodebase/main.cpp:439-455 | Cell (y, x) comes from field x of the y-th line after `data=`, or from an empty line past the end of the file |
| PlatformerMap.RowFields | HW4/NYUCodebase/NYUCodebase/main.cpp:446-453 | A map editor writes each 0-based code as its 1-based number |
| PlatformerMap.EncodeRowRead | HW4/NYUCodebase/NYUCodebase/main.cpp:444-453 | Every cell of an encoded row reads back as the code written |
| PlatformerMap.DecodeEncodedRows | HW4/NYUCodebase/NYUCodebase/main.cpp:438-455 | A `data=` block of encoded rows is read back as the grid it encodes |
| PlatformerMap.LocationOfCell | HW4/NYUCodebase/NYUCodebase/main.cpp:487-494 | `location=x,y` written from a cell reads back as that cell |
| PlatformerMap.ScanObjects | HW4/NYUCodebase/NYUCodebase/main.cpp:476-497 | The entity loop leaves the stream within the file |
| PlatformerMap.ScanObjectsPlacements | HW4/NYUCodebase/NYUCodebase/main.cpp:476-497 | The entity loop stops just after the first blank line. Its placements are the block's `location=` lines in file order, each with the value of the last `type=` line before it (or the type it started with) |
| PlatformerMap.LastOfKind | HW4/NYUCodebase/NYUCodebase/main.cpp:484-495 | The last placement of a type, with none exactly when the section has no placement of it |
| PlatformerMap.PlaceAllLatest | HW4/NYUCodebase/NYUCodebase/main.cpp:461-470 | Placement changes only player and king; each ends at the spawn point of its last placement, or is unchanged; other types are ignored |
| PlatformerMap.Scene | HW4/NYUCodebase/NYUCodebase/main.cpp:501-517 | `setupScene` reaches the drawing only after reading the whole file |
| PlatformerMap.SceneInvariant | HW4/NYUCodebase/NYUCodebase/main.cpp:421-455 | Loading keeps `levelData` at `mapHeight` rows of `mapWidth` cells and every code in [0, 254] |
| PlatformerMap.SceneAgrees | HW4/NYUCodebase/NYUCodebase/main.cpp:504-508 | A load that stops early depends only on the lines before its stop |
| PlatformerMap.RejectedHeaderEndsLoad | HW4/NYUCodebase/NYUCodebase/main.cpp:505-507 | A rejected header ends the load: no later section is read and the map is not drawn, whatever follows |
| PlatformerLevel.Level.ValidDimensioned | HW4/NYUCodebase/NYUCodebase/main.cpp:421-426 | A consistent level has `levelData` with `mapHeight` rows of `mapWidth` cells |
| PlatformerLevel.Level.constructor | HW4/NYUCodebase/NYUCodebase/main.cpp:58-60 | The globals start with zero sizes, no rows and no entities |
| PlatformerLevel.Level.ScanHeaderLines | HW4/NYUCodebase/NYUCodebase/main.cpp:400-416 | The header loop gives the width, height and stream position of the header scan |
| PlatformerLevel.Level.ReadHeader | HW4/NYUCodebase/NYUCodebase/main.cpp:398-428 | Status, stream position and the new sizes and fresh rows, as the header function gives them |
| PlatformerLevel.Level.ReadRow | HW4/NYUCodebase/NYUCodebase/main.cpp:441-454 | Cell x of row y gets the code of the (x+1)-th read; no other cell changes |
| PlatformerLevel.Level.ReadDataRows | HW4/NYUCodebase/NYUCodebase/main.cpp:439-455 | Every cell is written from its line, and the stream moves past `mapHeight` lines |
| PlatformerLevel.Level.ReadLayerBlock | HW4/NYUCodebase/NYUCodebase/main.cpp:438-456 | A `data=` block leaves the level as the layer function gives it |
| PlatformerLevel.Level.ReadLayerData | HW4/NYUCodebase/NYUCodebase/main.cpp:430-459 | `readLayerData` leaves the level and the stream as the layer scan gives them |
| PlatformerLevel.Level.PlaceEntity | HW4/NYUCodebase/NYUCodebase/main.cpp:461-470 | `placeEntity` updates the level as the placement function gives it |
| PlatformerLevel.Level.ReadEntityData | HW4/NYUCodebase/NYUCodebase/main.cpp:472-499 | `readEntityData` applies the section's placements in file order |
| PlatformerLevel.Level.SetupScene | HW4/NYUCodebase/NYUCodebase/main.cpp:501-518 | `setupScene` ends as the scene function says and leaves the level in its state |
| PlatformerGame.EventTransitions | HW4/NYUCodebase/NYUCodebase/main.cpp:562-575 | Events change only title to game (on space) and game over to title (on escape), and never end a game |
| PlatformerGame.AnimStepOk | HW4/NYUCodebase/NYUCodebase/main.cpp:656-671 | One step keeps `currentIndex` in [0, 4], so the frame lookup is in bounds |
| PlatformerGame.AnimAfterOk | HW4/NYUCodebase/NYUCodebase/main.cpp:651-675 | Any number of steps keeps the index in range |
| PlatformerGame.EveryThirdStep | HW4/NYUCodebase/NYUCodebase/main.cpp:656-671 | From a fresh period the frame changes at the third step, to the next frame while walking or to frame 4 while standing |
| PlatformerGame.WalkCycle | HW4/NYUCodebase/NYUCodebase/main.cpp:659-664 | Walking advances the index and wraps, back where it started after five changes |
| PlatformerGame.SpriteCell | HW4/NYUCodebase/NYUCodebase/main.cpp:669-670 | Every run frame lies in columns 1 to 5 of row 2 of the sprite sheet |
| PlatformerGame.FallsWithinExists | HW4/NYUCodebase/NYUCodebase/main.cpp:224-230 | The fall check fires during a frame exactly when it fires at one of its fixed steps |
| PlatformerGame.StepsQuotient | HW4/NYUCodebase/NYUCodebase/main.cpp:646-676 | A step count with less than a step left over is the quotient, and the rest is the remainder |
| PlatformerGame.Platformer.constructor | HW4/NYUCodebase/NYUCodebase/main.cpp:535 | The program starts on the title, with nothing accumulated and the first frame |
| PlatformerGame.Platformer.HandleEvent | HW4/NYUCodebase/NYUCodebase/main.cpp:558-576 | An event moves the state as the state machine says, and space on the title loads the map. A load that meets a size `new` cannot allocate ends the program instead, leaving the title state |
| PlatformerGame.Platformer.Frame | HW4/NYUCodebase/NYUCodebase/main.cpp:639-676 | A game frame takes the quotient of its steps, keeps the remainder, and moves the animation that many steps. It ends the game when the player reaches the king or falls out at any step. Other states change nothing |
| InvadersEntity.HostileDelay | HW3/NYUCodebase/NYUCodebase/main.cpp:166 | `rand() % 80 + 80` lies in [80, 159] |
| InvadersEntity.NewEntity | HW3/NYUCodebase/NYUCodebase/main.cpp:151-173 | Friendly shooter: health 3 and delay 20. Hostile shooter: health 1 and delay in [80, 159]. Non-shooter: health 100 |
| InvadersEntity.SameSideNeverCollides | HW3/NYUCodebase/NYUCodebase/main.cpp:188-192 | Entities on the same side never collide |
| InvadersEntity.CollidedSymmetric | HW3/NYUCodebase/NYUCodebase/main.cpp:188-197 | `collided` is symmetric |
| InvadersEntity.ShotOfShooter | HW3/NYUCodebase/NYUCodebase/main.cpp:361-362 | A shot is on its shooter's side, does not shoot, and has lifetime 100 |
| InvadersEntity.CappedKeeps | HW3/NYUCodebase/NYUCodebase/main.cpp:358-363 | An append keeps the buffer at most 101 long and puts the new shot last; the others keep their order, with at most the oldest dropped |
| InvadersEntity.PushAllFromEmpty | HW3/NYUCodebase/NYUCodebase/main.cpp:444-449 | From an empty buffer, appends leave the newest min(n, 101) shots, in firing order |
| InvadersEntity.PushAllSuffix | HW3/NYUCodebase/NYUCodebase/main.cpp:224 | From a buffer of at most 101, appends leave the newest entries of old and new together |
| InvadersEntity.TickDownFrame | HW3/NYUCodebase/NYUCodebase/main.cpp:181-186 | In a frame under a second, a positive counter drops by exactly 1 and one at or below 0 stays put |
| InvadersEntity.ProjectileLifetime | HW3/NYUCodebase/NYUCodebase/main.cpp:462-464 | A shot that hits nothing has 100 minus the frame count left, and is alive exactly during its first 99 frames |
| InvadersEntity.AliveAscending | HW3/NYUCodebase/NYUCodebase/main.cpp:490-495 | The surviving indices are in range and ascending |
| InvadersEntity.AliveMembers | HW3/NYUCodebase/NYUCodebase/main.cpp:490-493 | An index survives exactly when its projectile's health is positive |
| InvadersEntity.KeptIsAlive | HW3/NYUCodebase/NYUCodebase/main.cpp:490-493 | The kept projectiles are those at the surviving indices |
| InvadersEntity.KeptAreAlive | HW3/NYUCodebase/NYUCodebase/main.cpp:460-496 | The loop keeps exactly the projectiles still healthy after their visit, each once, in their original order |
| InvadersEntity.AliveLength | HW3/NYUCodebase/NYUCodebase/main.cpp:490-493 | No more survivors than projectiles |
| InvadersEntity.KeptHealthy | HW3/NYUCodebase/NYUCodebase/main.cpp:490-493 | Every kept projectile has positive health |
| InvadersEntity.KeptAppend | HW3/NYUCodebase/NYUCodebase/main.cpp:490-495 | Each new visit keeps the projectile exactly when it is healthy |
| InvadersEntity.AheadInColumn | HW3/NYUCodebase/NYUCodebase/main.cpp:435 | Indices i-6, i-12, ... are the enemies of i's column in the rows nearer the player |
| InvadersEntity.GridSnoc | HW3/NYUCodebase/NYUCodebase/main.cpp:291-300 | The grid is built one enemy at a time, in row-major order |
| InvadersEntity.AsWrittenIgnoresEnemyZero | HW3/NYUCodebase/NYUCodebase/main.cpp:434-440 | As written, enemy 6 of a fresh grid counts as front-of-column although enemy 0 stands before it |
| InvadersEntity.FrontOfFreshGrid | HW3/NYUCodebase/NYUCodebase/main.cpp:291-300 | With the bound corrected, the front enemies of a fresh grid are exactly the first row |
| InvadersEntity.AsWrittenMissesNegativeHealth | HW3/NYUCodebase/NYUCodebase/main.cpp:499-501 | As written, the test does not end a game at health -1 |
| InvadersEntity.GameOverWhenHealthGone | HW3/NYUCodebase/NYUCodebase/main.cpp:498-501 | Corrected, the game ends at any health at or below 0; the two tests agree for health at or above 0 |
| InvadersEntity.VersionsDiffer | HW3/NYUCodebase/NYUCodebase/main.cpp:434-501 | The corrected front-of-column test implies the test as written. They differ exactly when i is a multiple of 6 with enemy 0 alive and nothing else in front. The end test as written implies the corrected one, which also ends exactly the games at negative health below score 24 |
| InvadersRules.EnemyTurn | HW3/NYUCodebase/NYUCodebase/main.cpp:396-452 | An enemy's turn under either version of the front-of-column test keeps the number of enemies |
| InvadersRules.EnemyTurns | HW3/NYUCodebase/NYUCodebase/main.cpp:395-454 | The enemies' loop under either version keeps the number of enemies |
| InvadersRules.FrontIgnoresSelf | HW3/NYUCodebase/NYUCodebase/main.cpp:434-440 | Neither version of the front-of-column test reads enemy i itself |
| InvadersRules.EnemyTurnEffects | HW3/NYUCodebase/NYUCodebase/main.cpp:396-452 | A turn changes only that enemy, scores at most one, and keeps the cap. The enemy fires exactly when alive, front-of-column under the version in force, and out of delay; it then draws a delay in [80, 159] |
| InvadersRules.AsWrittenFiresThroughEnemyZero | HW3/NYUCodebase/NYUCodebase/main.cpp:434-452 | On a fresh grid with enemy 6 out of delay, the loop as written lets enemy 6 fire through the living enemy 0; corrected, it holds its fire |
| InvadersRules.PassedAndTouchingGoesNegative | HW3/NYUCodebase/NYUCodebase/main.cpp:414-430 | An enemy that is below the player and touching them leaves the player at health -1; the corrected test ends the game, and the test as written does not while the score is below 24 |
| InvadersRules.EnemyTurnsEffects | HW3/NYUCodebase/NYUCodebase/main.cpp:395-454 | The enemies' loop never raises an enemy's health, leaves dead enemies alone, keeps sides, never lowers the score, and keeps the cap |
| InvadersRules.StrikeEnemiesAt | HW3/NYUCodebase/NYUCodebase/main.cpp:479-487 | The inner loop treats each enemy on its own |
| InvadersRules.StrikeCountBounds | HW3/NYUCodebase/NYUCodebase/main.cpp:479-487 | The inner loop scores at most one per enemy, and nothing exactly when it strikes none |
| InvadersRules.StrikeSameSide | HW3/NYUCodebase/NYUCodebase/main.cpp:479-487 | Only the projectile's side matters to the inner loop |
| InvadersRules.HostileShotSparesEnemies | HW3/NYUCodebase/NYUCodebase/main.cpp:479-487 | An enemy's shot never hurts an enemy or scores |
| InvadersRules.StrikeNone | HW3/NYUCodebase/NYUCodebase/main.cpp:479-487 | A shot touching no enemy changes nothing |
| InvadersRules.PassSnoc | HW3/NYUCodebase/NYUCodebase/main.cpp:461-496 | The projectiles are visited one after another, in order |
| InvadersRules.VisitEffects | HW3/NYUCodebase/NYUCodebase/main.cpp:461-487 | A visit ages the shot and sets its health to 0 on a hit. The player loses at most one health, never to their own shot. Each enemy is struck at most once, only while alive |
| InvadersRules.PassEffects | HW3/NYUCodebase/NYUCodebase/main.cpp:460-496 | The visits of all shots keep sides, raise no health, leave dead enemies alone and never lower the score |
| InvadersRules.PassUntouched | HW3/NYUCodebase/NYUCodebase/main.cpp:460-496 | When nothing touches, the board is unchanged and every shot only ages |
| InvadersRules.ExpiringStep | HW3/NYUCodebase/NYUCodebase/main.cpp:461-495 | One turn of the expiry loop visits the next original projectile, and an erase with the index stepping back skips none |
| InvadersRules.ExpiringDone | HW3/NYUCodebase/NYUCodebase/main.cpp:461 | When the index reaches the end, every projectile has been visited once and the live ones are kept |
| InvadersRules.FrameEffects | HW3/NYUCodebase/NYUCodebase/main.cpp:346-496 | A frame keeps at most 101 projectiles, all alive. It keeps the enemy count and sides, never raises an enemy's health, leaves dead enemies alone and never lowers the score |
| InvadersGame.Invaders.constructor | HW3/NYUCodebase/NYUCodebase/main.cpp:212-228 | The title screen, empty lists, a zero score and a zero player, under the chosen version of the rules |
| InvadersGame.Invaders.StartGame | HW3/NYUCodebase/NYUCodebase/main.cpp:278-303 | Score 0, a new player, and 24 enemies appended in row-major order |
| InvadersGame.Invaders.Reset | HW3/NYUCodebase/NYUCodebase/main.cpp:305-312 | Game over to title empties both lists |
| InvadersGame.Invaders.HandleEvent | HW3/NYUCodebase/NYUCodebase/main.cpp:278-313 | Space on the title starts a game: score 0, a new player, the grid appended, the shots kept. Escape on game over empties both lists and keeps player and score. Any other event changes nothing |
| InvadersGame.Invaders.PushProjectile | HW3/NYUCodebase/NYUCodebase/main.cpp:358-363 | An append drops the oldest shot first when the list holds more than 100 |
| InvadersGame.Invaders.PlayerFire | HW3/NYUCodebase/NYUCodebase/main.cpp:356-366 | The player fires only with the delay run out, and the delay goes back to 20 |
| InvadersGame.Invaders.IsFirst | HW3/NYUCodebase/NYUCodebase/main.cpp:434-440 | The loop says whether no living enemy stands before enemy i in its column. As written it does not look at index 0 (`prev > 0`); corrected it does |
| InvadersGame.Invaders.EnemyAct | HW3/NYUCodebase/NYUCodebase/main.cpp:396-452 | One enemy's turn, as the turn function gives it under the game's version of the rules |
| InvadersGame.Invaders.EnemiesAct | HW3/NYUCodebase/NYUCodebase/main.cpp:395-454 | The turns of all enemies, in index order, under the game's version of the rules |
| InvadersGame.Invaders.HitEnemies | HW3/NYUCodebase/NYUCodebase/main.cpp:479-487 | Each living enemy touched loses one health and scores one, and a hit sets the shot's health to 0 |
| InvadersGame.Invaders.VisitProjectile | HW3/NYUCodebase/NYUCodebase/main.cpp:461-487 | A shot's visit up to the expiry test, as the visit function gives it |
| InvadersGame.Invaders.ExpireProjectiles | HW3/NYUCodebase/NYUCodebase/main.cpp:460-496 | The loop visits every projectile once and leaves exactly the healthy ones, in order |
| InvadersGame.Invaders.EndFrame | HW3/NYUCodebase/NYUCodebase/main.cpp:498-501 | Game over at score 24, or at health exactly 0 as written, or at health at or below 0 corrected |
| InvadersGame.Invaders.GameFrame | HW3/NYUCodebase/NYUCodebase/main.cpp:346-503 | A game frame is the frame function followed by the end test, both under the game's version of the rules; other states change nothing |

## Left out

- Rendering and platform code is not modelled: SDL windows, events and the
  keyboard, textures, shaders, drawing, `drawMap` and `renderMap`. Key states
  are parameters of the event and frame methods.
- The frame time is a parameter. `SDL_GetTicks` is not modelled.
- Platformer float kinematics are not modelled: gravity, friction, the speed
  clamp, the king's jump and `tileCollision`.
  - The player's world y at each fixed step is a parameter (`stepY`).
  - The player's and king's positions for the win check are parameters.
  - The out-of-bounds test and the overlap test are modelled over integer
    tenths.
- The platformer's fixed step and animation period use exact integer time.
  The float rounding of `FIXED_TIMESTEP` and of `1.0 / framesPerSecond` is
  not modelled.
- `MAX_TIMESTEPS` is a constant only: the program never uses it, and the loop
  has no step cap.
- Fresh `levelData` rows: their contents are indeterminate in C++. The model
  fills them with 0.
- Allocation failure: a negative size given to `new` throws and ends the
  program. This is the `Aborted` outcome, which `HandleEvent` reports as
  `ended`; what happens after the program ends is not modelled.
- Files read as lines:
  - the map file is a sequence of lines, so a missing `map.txt` is an empty
    sequence;
  - a read past the end of the file gives an empty line;
  - Windows line endings are not modelled.
- `atoi` is modelled over unbounded integers. Its undefined behaviour on
  overflow is not modelled.
- HW3 float kinematics are not modelled: movement, the wall bounce that
  shifts all enemies, and the circle-distance test. Instead:
  - the test of projectile n against the player is `tp(n)`, and against
    enemy j is `te(n, j)`;
  - whether an enemy touches or has passed the player is part of its
    `EnemyInput`;
  - `collided` keeps the same-side check and takes the circle test as its
    `touching` argument.
- HW3 frame times are exact reals. Float rounding in `health -= 1.0f *
  elapsed` and `shootDelay -= elapsed` is not modelled.
- `rand()` is not modelled. The value it returns for enemy k in a frame is
  the `roll` of that enemy's `EnemyInput`, and during setup it is `rolls(k)`.
- A projectile's `shootDelay` is never initialised by the program. The model
  gives it 0; no rule reads it.
- Sprites, positions and `rotation` are not part of the entity record.
- HW1 (drawing only) and HW2 (pong, whose logic is float trigonometry) are
  not part of this model. The dungeon-crawler prototype, "Final Project", is
  not part of this model either.

## Findings

| source | as written | input that shows it | evidently intended | confidence | as-written member | corrected member |
|---|---|---|---|---|---|---|
| HW3/NYUCodebase/NYUCodebase/main.cpp:435 | `for (prev = i - 6; prev > 0; prev -= 6)` never examines index 0 | A fresh grid with enemy 0 alive: enemy 6 counts as front-of-column and fires through it | `prev >= 0`, so that every enemy nearer the player in the column blocks the shot | not executed | InvadersRules.AsWrittenFiresThroughEnemyZero | InvadersEntity.FrontOfFreshGrid |
| HW3/NYUCodebase/NYUCodebase/main.cpp:499 | `player.health == 0` ends the game only at exactly 0 | An enemy below the player (health set to 0) that also touches them (health 0 - 1 = -1); or two hostile shots hitting a player at health 1 in one frame | `player.health <= 0` | not executed | InvadersRules.PassedAndTouchingGoesNegative | InvadersEntity.GameOverWhenHealthGone |
