/** The platformer's level loader as the program runs it: the globals
    `mapWidth`, `mapHeight`, `levelData`, `player` and `king` as the fields
    of one object, and `readHeader`, `readLayerData`, `readEntityData`,
    `placeEntity` and `setupScene` as methods whose loops walk the map
    file's lines. Each method is proved to leave the level in the state the
    functions of PlatformerMap give. */
module PlatformerLevel {
  import opened LineText
  import opened PlatformerTiles
  import opened PlatformerMap

  /** The array holds the rows `g`, cell for cell. */
  ghost predicate Holds(a: array2<int>, g: seq<seq<int>>)
    reads a
  {
    a.Length0 == |g| &&
    (forall y :: 0 <= y < |g| ==> |g[y]| == a.Length1) &&
    (forall y, x :: 0 <= y < a.Length0 && 0 <= x < a.Length1 ==> a[y, x] == g[y][x])
  }

  class Level {
    var mapWidth: int
    var mapHeight: int
    /** `levelData`, one row per map row. */
    var levelData: array2<int>
    var player: Option<Actor>
    var king: Option<Actor>
    /** The loader's globals as one value. */
    ghost var state: LevelState

    /** When the map has cells, `levelData` has exactly `mapHeight` rows of
        `mapWidth` cells. */
    predicate Dimensioned()
      reads this
    {
      mapHeight > 0 && mapWidth > 0 ==> levelData.Length0 == mapHeight && levelData.Length1 == mapWidth
    }

    /** The fields are the abstract state, and the rows have the size the
        header gave. */
    ghost predicate Valid()
      reads this, levelData
    {
      state.width == mapWidth && state.height == mapHeight &&
      state.player == player && state.king == king &&
      Holds(levelData, state.tiles) && Shaped(state)
    }

    lemma ValidDimensioned()
      requires Valid()
      ensures Dimensioned()
    {
      if mapHeight > 0 && mapWidth > 0 {
        assert |state.tiles[0]| == levelData.Length1;
      }
    }

    /** The globals before any map is read: zero sizes, no rows, no entities. */
    constructor()
      ensures Valid() && state == LevelState(0, 0, [], None, None)
    {
      mapWidth, mapHeight := 0, 0;
      levelData := new int[0, 0];
      player, king := None, None;
      state := LevelState(0, 0, [], None, None);
    }

    /** The loop of `readHeader`, with the stream at line `pos`: the values
        the `width=` and `height=` lines leave in `mapWidth` and `mapHeight`
        (both start at -1), and where the stream is left. */
    static method ScanHeaderLines(lines: seq<string>, pos: nat) returns (width: int, height: int, next: nat)
      requires pos <= |lines|
      ensures HeaderScan(width, height, next) == ScanHeader(lines, pos, -1, -1)
    {
      width, height := -1, -1;
      var p := pos;
      while p < |lines|
        invariant pos <= p <= |lines|
        invariant ScanHeader(lines, p, width, height) == ScanHeader(lines, pos, -1, -1)
        decreases |lines| - p
      {
        var line := lines[p];
        p := p + 1;
        if line == "" {
          break;
        }
        var key, value := KeyOf(line), ValueOf(line);
        if key == "width" {
          width := Atoi(value);
        } else if key == "height" {
          height := Atoi(value);
        }
      }
      next := p;
    }

    /** `readHeader`, with the stream at line `pos`: returns the status and
        where the stream is left. */
    method ReadHeader(lines: seq<string>, pos: nat) returns (status: HeaderStatus, next: nat)
      requires pos <= |lines| && Valid()
      modifies this
      ensures Valid()
      ensures var h := ScanHeader(lines, pos, -1, -1);
              status == HeaderOutcome(h.width, h.height) && next == h.next &&
              state == ApplyHeader(old(state), h)
      ensures status == Accepted ==> fresh(levelData)
      ensures status != Accepted ==> levelData == old(levelData)
    {
      mapWidth, mapHeight, next := ScanHeaderLines(lines, pos);
      state := ApplyHeader(state, HeaderScan(mapWidth, mapHeight, next));
      if mapWidth == -1 || mapHeight == -1 {
        status := Rejected;
        return;
      }
      if mapHeight < 0 || (mapHeight > 0 && mapWidth < 0) {
        // `new` throws on a negative length and the program ends
        status := BadSize;
        return;
      }
      levelData := new int[mapHeight, RowCount(mapWidth)]((y, x) => 0);
      status := Accepted;
    }

    /** The inner loop of `readLayerData`: the first `mapWidth` fields of
        `row` into row `y`, read with `getline(lineStream, tile, ',')`. */
    method ReadRow(y: nat, row: string)
      requires mapWidth > 0 ==> y < levelData.Length0 && mapWidth == levelData.Length1
      modifies levelData
      ensures forall x :: 0 <= x < mapWidth ==> levelData[y, x] == TileCode(FieldsRead(row, ',', x + 1).field)
      ensures forall y', x :: 0 <= y' < levelData.Length0 && 0 <= x < levelData.Length1 &&
                              (y' != y || x >= mapWidth) ==>
                levelData[y', x] == old(levelData[y', x])
    {
      var lineStream := Open(row);
      var tile := "";
      var x := 0;
      while x < mapWidth
        invariant 0 <= x <= RowCount(mapWidth)
        invariant Got(lineStream, tile) == FieldsRead(row, ',', x)
        invariant forall k :: 0 <= k < x ==> levelData[y, k] == TileCode(FieldsRead(row, ',', k + 1).field)
        invariant forall y', k :: 0 <= y' < levelData.Length0 && 0 <= k < levelData.Length1 &&
                                  (y' != y || k >= x) ==>
                    levelData[y', k] == old(levelData[y', k])
      {
        var got := GetLine(lineStream, ',', tile);
        lineStream, tile := got.stream, got.field;
        levelData[y, x] := TileCode(tile);
        x := x + 1;
      }
    }

    /** The row loop of `readLayerData` after a `data=` line at `d`, with
        the stream at `d + 1`: `mapHeight` calls of `getline(stream, line)`,
        each line read into its row (past the end of the file the line read
        is empty). Returns where the stream is left. */
    method ReadDataRows(lines: seq<string>, d: nat) returns (next: nat)
      requires d < |lines| && Dimensioned()
      modifies levelData
      ensures next == Min(d + 1 + RowCount(mapHeight), |lines|)
      ensures forall y, x :: 0 <= y < mapHeight && 0 <= x < mapWidth ==>
                levelData[y, x] == TileCode(FieldsRead(LineAt(lines, d + 1 + y), ',', x + 1).field)
      ensures !(mapHeight > 0 && mapWidth > 0) ==>
                forall y, x :: 0 <= y < levelData.Length0 && 0 <= x < levelData.Length1 ==>
                  levelData[y, x] == old(levelData[y, x])
    {
      next := d + 1;
      var y := 0;
      while y < mapHeight
        invariant 0 <= y <= RowCount(mapHeight)
        invariant next == Min(d + 1 + y, |lines|)
        invariant forall y', k :: 0 <= y' < y && 0 <= k < mapWidth ==>
                    levelData[y', k] == TileCode(FieldsRead(LineAt(lines, d + 1 + y'), ',', k + 1).field)
        invariant forall y', k :: 0 <= y' < levelData.Length0 && 0 <= k < levelData.Length1 &&
                                  (y' >= y || k >= mapWidth) ==>
                    levelData[y', k] == old(levelData[y', k])
      {
        var line := LineAt(lines, next);
        next := Min(next + 1, |lines|);
        ReadRow(y, line);
        y := y + 1;
      }
    }

    /** A `data=` line at `d`: its rows are read into `levelData`, which
        then holds the decoded rows. */
    method ReadLayerBlock(lines: seq<string>, d: nat) returns (next: nat)
      requires d < |lines| && Valid()
      modifies this, levelData
      ensures Valid() && levelData == old(levelData)
      ensures mapWidth == old(mapWidth) && mapHeight == old(mapHeight)
      ensures next == Min(d + 1 + RowCount(mapHeight), |lines|)
      ensures state == ApplyLayer(old(state), lines, Some(d))
    {
      ValidDimensioned();
      next := ReadDataRows(lines, d);
      state := ApplyLayer(state, lines, Some(d));
      if mapHeight > 0 && mapWidth > 0 {
        forall y, x | 0 <= y < mapHeight && 0 <= x < mapWidth
          ensures levelData[y, x] == state.tiles[y][x]
        {
          DecodeRowsAt(lines, d, mapHeight, mapWidth, y, x);
          FieldsReadField(LineAt(lines, d + 1 + y), ',', x);
        }
      }
    }

    /** `readLayerData`, with the stream at line `pos`: returns where the
        stream is left. */
    method ReadLayerData(lines: seq<string>, pos: nat) returns (next: nat)
      requires pos <= |lines| && Valid()
      modifies this, levelData
      ensures Valid() && levelData == old(levelData)
      ensures var l := ScanLayer(lines, pos, mapHeight, None);
              next == l.next && state == ApplyLayer(old(state), lines, l.data)
    {
      var p := pos;
      ghost var data: Option<nat> := None;
      ghost var height := mapHeight;
      while p < |lines|
        invariant pos <= p <= |lines|
        invariant Valid() && levelData == old(levelData) && mapHeight == height
        invariant DataOk(lines, p, height, data)
        invariant ScanLayer(lines, p, height, data) == ScanLayer(lines, pos, height, None)
        invariant state == ApplyLayer(old(state), lines, data)
        decreases |lines| - p
      {
        var line := lines[p];
        p := p + 1;
        if line == "" {
          break;
        }
        var key, value := KeyOf(line), ValueOf(line);
        if key == "data" {
          data := Some(p - 1);
          p := ReadLayerBlock(lines, p - 1);
        }
      }
      next := p;
    }

    /** `placeEntity(type, x, y)`, with the world position in tenths. */
    method PlaceEntity(kind: string, x: int, y: int)
      requires Valid()
      modifies this
      ensures Valid() && levelData == old(levelData)
      ensures state == Place(old(state), kind, x, y)
    {
      if kind == "Player" {
        player := Some(Actor(PlayerEntity, x, y + 1));
      } else if kind == "King" {
        king := Some(Actor(KingEntity, x + 1, y));
      }
      state := Place(state, kind, x, y);
    }

    /** `readEntityData`, with the stream at line `pos`: returns where the
        stream is left. */
    method ReadEntityData(lines: seq<string>, pos: nat) returns (next: nat)
      requires pos <= |lines| && Valid()
      modifies this
      ensures Valid() && levelData == old(levelData)
      ensures var o := ScanObjects(lines, pos, "");
              next == o.next && state == PlaceAll(old(state), o.placements)
    {
      var p := pos;
      var kind := "";
      ghost var done: seq<Placement> := [];
      while p < |lines|
        invariant pos <= p <= |lines|
        invariant Valid() && levelData == old(levelData)
        invariant done + ScanObjects(lines, p, kind).placements == ScanObjects(lines, pos, "").placements
        invariant ScanObjects(lines, p, kind).next == ScanObjects(lines, pos, "").next
        invariant state == PlaceAll(old(state), done)
        decreases |lines| - p
      {
        var line := lines[p];
        p := p + 1;
        if line == "" {
          assert ScanObjects(lines, p - 1, kind) == ObjectScan([], p);
          assert done + ScanObjects(lines, p - 1, kind).placements == done;
          break;
        }
        var key, value := KeyOf(line), ValueOf(line);
        if key == "type" {
          kind := value;
        } else if key == "location" {
          var xPosition := GetLine(Open(value), ',', "");
          var yPosition := GetLine(xPosition.stream, ',', "");
          var placeX := Atoi(xPosition.field) * TILE_SIZE;
          var placeY := Atoi(yPosition.field) * -TILE_SIZE;
          ghost var placed := LocationOf(kind, value);
          assert placeX == TILE_SIZE * placed.col && placeY == -TILE_SIZE * placed.row;
          PlaceEntity(kind, placeX, placeY);
          PlaceAllSnoc(old(state), done, placed);
          assert (done + [placed]) + ScanObjects(lines, p, kind).placements ==
                 done + ([placed] + ScanObjects(lines, p, kind).placements);
          done := done + [placed];
        }
      }
      assert done == ScanObjects(lines, pos, "").placements;
      next := p;
    }

    /** `setupScene` over the lines of the map file: returns how it ended. */
    method SetupScene(lines: seq<string>) returns (outcome: SceneOutcome)
      requires Valid()
      modifies this, levelData
      ensures Valid()
      ensures var r := Scene(lines, 0, old(state));
              outcome == r.outcome && state == r.state
    {
      var p := 0;
      while p < |lines|
        invariant 0 <= p <= |lines|
        invariant Valid()
        invariant levelData == old(levelData) || fresh(levelData)
        invariant Scene(lines, p, state) == Scene(lines, 0, old(state))
        decreases |lines| - p
      {
        var line := lines[p];
        p := p + 1;
        if line == "[header]" {
          var status, next := ReadHeader(lines, p);
          p := next;
          if status == Rejected {
            return HeaderRejected;
          } else if status == BadSize {
            return Aborted;
          }
        } else if line == "[layer]" {
          p := ReadLayerData(lines, p);
        } else if line == "[Object Layer 1]" {
          p := ReadEntityData(lines, p);
        }
      }
      outcome := Drawn;
    }
  }
}
