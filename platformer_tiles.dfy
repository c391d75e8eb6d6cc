/** Tile codes of the platformer's level grid, the solid-tile test, and the
    conversion between world positions and grid cells. World coordinates are
    kept in integer tenths of a world unit, so that the tile size 0.2 is 2
    and the spawn offsets of 0.1 are 1. */
module PlatformerTiles {
  import opened LineText

  /** MAP_TILE_SIZE, in tenths. */
  const TILE_SIZE := 2
  const LEVEL_WIDTH := 30
  const LEVEL_HEIGHT := 45

  /** The code stored in `levelData` for one comma-separated field: the
      field's `atoi` converted to `unsigned char`, then moved from the map
      file's 1-based numbering to 0-based, with 0 kept as 0. */
  function TileCode(field: string): (code: int)
    ensures 0 <= code <= 254
    ensures code == 0 <==> Atoi(field) % 256 <= 1
  {
    var v := Atoi(field) % 256;
    if v > 0 then v - 1 else 0
  }

  /** What the map editor writes for a 0-based code `c` (the number c + 1)
      is read back as `c`. */
  lemma TileCodeOfDecimal(c: int)
    requires 0 <= c <= 254
    ensures TileCode(Decimal(c + 1)) == c
  {
    AtoiDecimal(c + 1);
  }

  /** `Entity::isSolid`: the four tile codes the player cannot pass through. */
  predicate IsSolid(tile: int)
  {
    tile == 4 || tile == 5 || tile == 48 || tile == 75
  }

  /** In the 1-based numbering of the map file, the solid tiles are 5, 6,
      49 and 76 (taken modulo 256, as the `unsigned char` cast does). */
  lemma SolidFieldValues(field: string)
    ensures IsSolid(TileCode(field)) <==> Atoi(field) % 256 in {5, 6, 49, 76}
  {
  }

  /** C's integer division, which truncates toward zero (Dafny's `/` is
      Euclidean). */
  function TruncDiv(a: int, b: int): (q: int)
    requires b > 0
    ensures a >= 0 ==> q * b <= a < q * b + b
    ensures a < 0 ==> q * b - b < a <= q * b
  {
    if a >= 0 then a / b else -((-a) / b)
  }

  /** `worldToTileCoordinates`, x part: `(int)(worldX / MAP_TILE_SIZE)`. */
  function TileColumn(worldX: int): int
  {
    TruncDiv(worldX, TILE_SIZE)
  }

  /** `worldToTileCoordinates`, y part: `(int)(worldY / -MAP_TILE_SIZE)`;
      world y grows upwards and tile rows grow downwards. */
  function TileRow(worldY: int): int
  {
    TruncDiv(-worldY, TILE_SIZE)
  }

  /** Half the height of an entity (its size is 0.2 by 0.4). */
  const HALF_HEIGHT := 2
  /** Full extents of an entity, used by `Entity::collided`. */
  const ENTITY_WIDTH := 2
  const ENTITY_HEIGHT := 4

  /** The tile row under an entity's feet, as `Entity::Update` computes it. */
  function FootRow(worldY: int): int
  {
    TileRow(worldY - HALF_HEIGHT)
  }

  /** The out-of-bounds test of `Entity::Update` for the player. */
  predicate FellOut(worldY: int)
  {
    FootRow(worldY) >= LEVEL_HEIGHT - 1
  }

  /** `Entity::collided` in the platformer: the two boxes overlap. */
  predicate Overlap(x1: int, y1: int, x2: int, y2: int)
  {
    (if x1 >= x2 then x1 - x2 else x2 - x1) < ENTITY_WIDTH &&
    (if y1 >= y2 then y1 - y2 else y2 - y1) < ENTITY_HEIGHT
  }

  /** World position `placeEntity` gives the player for grid cell (col, row):
      the cell's corner, raised by 0.1. */
  function PlayerSpawnX(col: int): int { TILE_SIZE * col }
  function PlayerSpawnY(row: int): int { -TILE_SIZE * row + 1 }
  /** ... and the king: the cell's corner, moved right by 0.1. */
  function KingSpawnX(col: int): int { TILE_SIZE * col + 1 }
  function KingSpawnY(row: int): int { -TILE_SIZE * row }

  /** A player spawned on a cell inside the grid stands on that cell: the
      world-to-tile conversion of its spawn point gives the cell back. */
  lemma PlayerSpawnCell(col: nat, row: nat)
    ensures TileColumn(PlayerSpawnX(col)) == col
    ensures FootRow(PlayerSpawnY(row)) == row
  {
  }

  /** The king is spawned half a tile right of the cell's corner, which its
      column still maps back to. */
  lemma KingSpawnCell(col: nat, row: nat)
    ensures TileColumn(KingSpawnX(col)) == col
    ensures TileRow(KingSpawnY(row)) == row
  {
  }

  /** A player spawned in one of the bottom two rows of the level counts as
      fallen out at its first update, and one spawned higher does not. */
  lemma SpawnFellOut(row: nat)
    ensures FellOut(PlayerSpawnY(row)) <==> row >= LEVEL_HEIGHT - 1
  {
    PlayerSpawnCell(0, row);
  }

  /** A player and king spawned on the same cell touch at once. */
  lemma SameCellSpawnOverlaps(col: int, row: int)
    ensures Overlap(PlayerSpawnX(col), PlayerSpawnY(row), KingSpawnX(col), KingSpawnY(row))
  {
  }

  /** Overlap is symmetric, so it does not matter which of the two calls
      `collided`. */
  lemma OverlapSymmetric(x1: int, y1: int, x2: int, y2: int)
    ensures Overlap(x1, y1, x2, y2) <==> Overlap(x2, y2, x1, y1)
  {
  }
}
