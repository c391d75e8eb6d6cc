/** The platformer's map text format and what loading it does to the level,
    as functions over the file's lines: `readHeader`, `readLayerData`,
    `readEntityData`, `placeEntity` and `setupScene` of the platformer, each
    given the lines and the position of the stream, and returning where the
    stream is left. The map file is modelled as the sequence of its lines,
    every line ended by a newline, so that a read past the end of the file
    yields the empty line. */
module PlatformerMap {
  import opened LineText
  import opened PlatformerTiles

  datatype Option<T> = None | Some(value: T)

  datatype EntityType = PlayerEntity | KingEntity

  /** A placed entity: its type and its world position, in tenths. */
  datatype Actor = Actor(kind: EntityType, x: int, y: int)

  /** The loader's globals: `mapWidth`, `mapHeight`, the rows of
      `levelData`, and the `player` and `king` entities (None until first
      placed). */
  datatype LevelState = LevelState(width: int, height: int, tiles: seq<seq<int>>,
                                   player: Option<Actor>, king: Option<Actor>)

  /** The line `getline` yields at index `i`: past the end of the file the
      read fails and the line read is empty. */
  function LineAt(lines: seq<string>, i: int): string
  {
    if 0 <= i < |lines| then lines[i] else ""
  }

  function Min(a: nat, b: nat): nat
  {
    if a <= b then a else b
  }

  // ---------------------------------------------------------------------
  // [header]

  datatype HeaderScan = HeaderScan(width: int, height: int, next: nat)

  /** The loop of `readHeader`, from `pos`, with `width` and `height` the
      values of `mapWidth` and `mapHeight` so far: up to and including the
      first blank line, `width=` and `height=` lines set their variable to
      the `atoi` of their value and every other line is ignored. */
  function ScanHeader(lines: seq<string>, pos: nat, width: int, height: int): (r: HeaderScan)
    requires pos <= |lines|
    ensures pos <= r.next <= |lines|
    decreases |lines| - pos
  {
    if pos == |lines| then HeaderScan(width, height, pos)
    else if lines[pos] == "" then HeaderScan(width, height, pos + 1)
    else
      var key, value := KeyOf(lines[pos]), ValueOf(lines[pos]);
      ScanHeader(lines, pos + 1,
                 if key == "width" then Atoi(value) else width,
                 if key == "height" then Atoi(value) else height)
  }

  /** Index of the first blank line at or after `pos`, or the end of the file. */
  function BlockEnd(lines: seq<string>, pos: nat): (e: nat)
    requires pos <= |lines|
    ensures pos <= e <= |lines|
    ensures forall k :: pos <= k < e ==> lines[k] != ""
    ensures e < |lines| ==> lines[e] == ""
    decreases |lines| - pos
  {
    if pos == |lines| || lines[pos] == "" then pos else BlockEnd(lines, pos + 1)
  }

  /** The value of the last line in lines[lo..hi] whose key is `key`. */
  function LastValue(lines: seq<string>, lo: nat, hi: nat, key: string): Option<string>
    requires lo <= hi <= |lines|
    decreases hi
  {
    if hi == lo then None
    else if KeyOf(lines[hi - 1]) == key then Some(ValueOf(lines[hi - 1]))
    else LastValue(lines, lo, hi - 1, key)
  }

  /** Where a reader whose loop stops at the first blank line at or after
      `pos` leaves the stream: just after that line, or at the end. */
  function After(lines: seq<string>, pos: nat): (next: nat)
    requires pos <= |lines|
    ensures pos <= next <= |lines|
  {
    var e := BlockEnd(lines, pos);
    if e < |lines| then e + 1 else e
  }

  /** No line from `pos` up to the next blank line has the key. */
  ghost predicate NoKeyInBlock(lines: seq<string>, pos: nat, key: string)
    requires pos <= |lines|
  {
    forall k :: pos <= k < BlockEnd(lines, pos) ==> KeyOf(lines[k]) != key
  }

  /** LastValue finds nothing exactly when no line of the range has the key. */
  lemma {:induction false} LastValueNone(lines: seq<string>, lo: nat, hi: nat, key: string)
    requires lo <= hi <= |lines|
    ensures LastValue(lines, lo, hi, key) == None <==> forall k :: lo <= k < hi ==> KeyOf(lines[k]) != key
    decreases hi
  {
    if hi > lo && KeyOf(lines[hi - 1]) != key {
      LastValueNone(lines, lo, hi - 1, key);
    }
  }

  /** ... and otherwise it is the value of a line with the key that no
      later line of the range overrides. */
  lemma {:induction false} LastValueSome(lines: seq<string>, lo: nat, hi: nat, key: string)
    requires lo <= hi <= |lines|
    requires LastValue(lines, lo, hi, key).Some?
    ensures exists k :: lo <= k < hi && KeyOf(lines[k]) == key &&
                        LastValue(lines, lo, hi, key).value == ValueOf(lines[k]) &&
                        (forall j :: k < j < hi ==> KeyOf(lines[j]) != key)
    decreases hi
  {
    if KeyOf(lines[hi - 1]) == key {
      var k := hi - 1;
      assert KeyOf(lines[k]) == key && LastValue(lines, lo, hi, key).value == ValueOf(lines[k]);
    } else {
      LastValueSome(lines, lo, hi - 1, key);
    }
  }

  /** The value a header variable ends with: the `atoi` of its last line,
      or what it had before when the block has none. */
  function Setting(last: Option<string>, before: int): int
  {
    match last
    case None => before
    case Some(v) => Atoi(v)
  }

  lemma {:induction false} LastValueFront(lines: seq<string>, lo: nat, hi: nat, key: string)
    requires lo < hi <= |lines|
    ensures LastValue(lines, lo, hi, key) ==
            (if LastValue(lines, lo + 1, hi, key).Some? then LastValue(lines, lo + 1, hi, key)
             else if KeyOf(lines[lo]) == key then Some(ValueOf(lines[lo]))
             else None)
    decreases hi
  {
    if hi > lo + 1 {
      LastValueFront(lines, lo, hi - 1, key);
    }
  }

  /** The header block's result: each of `width` and `height` is set by the
      LAST line with that key before the first blank line (a later line
      overrides an earlier one, lines with other keys change nothing), and
      the stream is left just after that blank line. */
  lemma {:induction false} ScanHeaderLast(lines: seq<string>, pos: nat, width: int, height: int)
    requires pos <= |lines|
    ensures var e := BlockEnd(lines, pos);
            ScanHeader(lines, pos, width, height) ==
            HeaderScan(Setting(LastValue(lines, pos, e, "width"), width),
                       Setting(LastValue(lines, pos, e, "height"), height),
                       if e < |lines| then e + 1 else e)
    decreases |lines| - pos
  {
    if pos < |lines| && lines[pos] != "" {
      var key, value := KeyOf(lines[pos]), ValueOf(lines[pos]);
      var w := if key == "width" then Atoi(value) else width;
      var h := if key == "height" then Atoi(value) else height;
      ScanHeaderLast(lines, pos + 1, w, h);
      var e := BlockEnd(lines, pos);
      assert e == BlockEnd(lines, pos + 1);
      LastValueFront(lines, pos, e, "width");
      LastValueFront(lines, pos, e, "height");
    }
  }

  /** What `readHeader` returns: `false` when either variable still holds
      the sentinel -1, otherwise `true` after allocating the rows; a negative
      size makes `new` throw, which ends the program. */
  datatype HeaderStatus = Accepted | Rejected | BadSize

  function HeaderOutcome(width: int, height: int): (s: HeaderStatus)
    ensures s == Rejected <==> width == -1 || height == -1
    ensures s == Accepted <==> width != -1 && height != -1 && height >= 0 && (height > 0 ==> width >= 0)
  {
    if width == -1 || height == -1 then Rejected
    else if height < 0 || (height > 0 && width < 0) then BadSize
    else Accepted
  }

  /** `readHeader` returns false exactly when the header block (up to the
      first blank line) lacks a `width=` line or a `height=` line, or the
      last such line reads as -1. */
  lemma HeaderRejectedIff(lines: seq<string>, pos: nat)
    requires pos <= |lines|
    ensures var e := BlockEnd(lines, pos);
            var r := ScanHeader(lines, pos, -1, -1);
            var w, h := LastValue(lines, pos, e, "width"), LastValue(lines, pos, e, "height");
            HeaderOutcome(r.width, r.height) == Rejected <==>
              (w == None || Atoi(w.value) == -1 || h == None || Atoi(h.value) == -1)
  {
    ScanHeaderLast(lines, pos, -1, -1);
  }

  /** Row length of the rows `readHeader` allocates; when there are no rows
      the length is immaterial and taken as 0 for a negative width. */
  function RowCount(n: int): nat
  {
    if n > 0 then n else 0
  }

  /** The rows `readHeader` allocates. Their contents are indeterminate in
      the source; the model fills them with tile 0. */
  function Blank(height: nat, width: nat): (g: seq<seq<int>>)
    ensures |g| == height
    ensures forall y :: 0 <= y < height ==> g[y] == seq(width, x => 0)
  {
    seq(height, y => seq(width, x => 0))
  }

  /** `readHeader` on the level: sets `mapWidth` and `mapHeight`, and on
      success replaces `levelData` by fresh rows of the new size. */
  function ApplyHeader(s: LevelState, h: HeaderScan): LevelState
  {
    var status := HeaderOutcome(h.width, h.height);
    s.(width := h.width, height := h.height,
       tiles := if status == Accepted then Blank(h.height, RowCount(h.width)) else s.tiles)
  }

  // ---------------------------------------------------------------------
  // [layer]

  datatype LayerScan = LayerScan(data: Option<nat>, next: nat)

  /** `data` names a `data=` line before `pos` whose rows end by `pos` (or
      ran into the end of the file). */
  ghost predicate DataOk(lines: seq<string>, pos: nat, height: int, data: Option<nat>)
    requires pos <= |lines|
  {
    data.Some? ==> data.value < pos && KeyOf(lines[data.value]) == "data" &&
                   (data.value + 1 + RowCount(height) <= pos || pos == |lines|)
  }

  /** The loop of `readLayerData` from `pos` with `mapHeight` = `height`:
      up to the first blank line, a `data=` line makes the next `height`
      lines rows of tiles (consumed whatever they hold) and every other
      line is ignored. `data` is the index of the last `data=` line seen. */
  function ScanLayer(lines: seq<string>, pos: nat, height: int, data: Option<nat>): (r: LayerScan)
    requires pos <= |lines|
    requires DataOk(lines, pos, height, data)
    ensures pos <= r.next <= |lines|
    ensures data.Some? ==> r.data.Some?
    ensures DataOk(lines, r.next, height, r.data)
    decreases |lines| - pos
  {
    if pos == |lines| then LayerScan(data, pos)
    else if lines[pos] == "" then LayerScan(data, pos + 1)
    else if KeyOf(lines[pos]) == "data" then
      ScanLayer(lines, Min(pos + 1 + RowCount(height), |lines|), height, Some(pos))
    else ScanLayer(lines, pos + 1, height, data)
  }

  /** What one layer block did: either it has no `data=` line before its
      blank line, and the remembered line is unchanged; or the remembered
      line is a `data=` line of the block, and it is the LAST one: no
      `data=` line follows between the end of its rows and the blank line
      that ends the block. Either way the stream is left after that blank
      line. */
  ghost predicate LayerRead(lines: seq<string>, pos: nat, height: int, data: Option<nat>, r: LayerScan)
    requires pos <= |lines|
  {
    (r.data == data && NoKeyInBlock(lines, pos, "data") && r.next == After(lines, pos)) ||
    (r.data.Some? && pos <= r.data.value < |lines| && KeyOf(lines[r.data.value]) == "data" &&
     NoKeyInBlock(lines, Min(r.data.value + 1 + RowCount(height), |lines|), "data") &&
     r.next == After(lines, Min(r.data.value + 1 + RowCount(height), |lines|)))
  }

  /** A `data=` line takes over what the block after its rows did. */
  lemma LayerReadData(lines: seq<string>, pos: nat, height: int, data: Option<nat>, r: LayerScan)
    requires pos < |lines| && lines[pos] != "" && KeyOf(lines[pos]) == "data"
    requires LayerRead(lines, Min(pos + 1 + RowCount(height), |lines|), height, Some(pos), r)
    ensures LayerRead(lines, pos, height, data, r)
  {
  }

  /** Any other non-blank line is skipped. */
  lemma LayerReadSkip(lines: seq<string>, pos: nat, height: int, data: Option<nat>, r: LayerScan)
    requires pos < |lines| && lines[pos] != "" && KeyOf(lines[pos]) != "data"
    requires LayerRead(lines, pos + 1, height, data, r)
    ensures LayerRead(lines, pos, height, data, r)
  {
    assert BlockEnd(lines, pos) == BlockEnd(lines, pos + 1);
  }

  /** The layer block's result is what LayerRead describes. */
  lemma {:induction false} ScanLayerLast(lines: seq<string>, pos: nat, height: int, data: Option<nat>)
    requires pos <= |lines|
    requires DataOk(lines, pos, height, data)
    ensures LayerRead(lines, pos, height, data, ScanLayer(lines, pos, height, data))
    decreases |lines| - pos
  {
    if pos == |lines| || lines[pos] == "" {
      assert BlockEnd(lines, pos) == pos;
    } else if KeyOf(lines[pos]) == "data" {
      var q := Min(pos + 1 + RowCount(height), |lines|);
      ScanLayerLast(lines, q, height, Some(pos));
      LayerReadData(lines, pos, height, data, ScanLayer(lines, q, height, Some(pos)));
    } else {
      ScanLayerLast(lines, pos + 1, height, data);
      LayerReadSkip(lines, pos, height, data, ScanLayer(lines, pos + 1, height, data));
    }
  }

  /** The field the x-th read of a row gives: a row shorter than the map
      repeats its last field (the stream fails and `tile` keeps its value). */
  function TileField(row: string, x: nat): string
  {
    FieldRead(row, ',', x)
  }

  /** The tile codes of the `height` rows after the `data=` line at `d`,
      each cut to its first `width` fields. */
  function DecodeRows(lines: seq<string>, d: nat, height: nat, width: nat): (g: seq<seq<int>>)
    ensures |g| == height
    ensures forall y :: 0 <= y < height ==> |g[y]| == width
    ensures forall y, x :: 0 <= y < height && 0 <= x < width ==> 0 <= g[y][x] <= 254
  {
    var g := seq(height, y => DecodeRow(LineAt(lines, d + 1 + y), width));
    assert forall y :: 0 <= y < height ==> g[y] == DecodeRow(LineAt(lines, d + 1 + y), width);
    g
  }

  /** The first `width` tile codes of one row. */
  function DecodeRow(row: string, width: nat): (r: seq<int>)
    ensures |r| == width
    ensures forall x :: 0 <= x < width ==> r[x] == TileCode(TileField(row, x)) && 0 <= r[x] <= 254
  {
    seq(width, x requires 0 <= x => TileCode(TileField(row, x)))
  }

  /** Cell (y, x) of the decoded rows is field x of line d + 1 + y. */
  lemma DecodeRowsAt(lines: seq<string>, d: nat, height: nat, width: nat, y: nat, x: nat)
    requires y < height && x < width
    ensures DecodeRows(lines, d, height, width)[y][x] == TileCode(TileField(LineAt(lines, d + 1 + y), x))
  {
    assert DecodeRows(lines, d, height, width)[y] == DecodeRow(LineAt(lines, d + 1 + y), width);
  }

  /** `readLayerData` on the level: a `data=` block overwrites every cell,
      so the last block decides the tiles; with no block, or with no cells,
      nothing is written. */
  function ApplyLayer(s: LevelState, lines: seq<string>, data: Option<nat>): LevelState
  {
    if data.Some? && s.height > 0 && s.width > 0
    then s.(tiles := DecodeRows(lines, data.value, s.height, s.width))
    else s
  }

  /** The fields a map editor writes for one row: each 0-based code as the
      1-based number. */
  function RowFields(row: seq<int>): (fields: seq<string>)
    requires forall x :: 0 <= x < |row| ==> 0 <= row[x] <= 254
    ensures |fields| == |row|
    ensures forall x :: 0 <= x < |row| ==> fields[x] == Decimal(row[x] + 1)
  {
    seq(|row|, x requires 0 <= x < |row| => Decimal(row[x] + 1))
  }

  /** One row as a map editor writes it: the fields separated by commas. */
  function EncodeRow(row: seq<int>): string
    requires |row| >= 1
    requires forall x :: 0 <= x < |row| ==> 0 <= row[x] <= 254
  {
    Join(RowFields(row), ',')
  }

  lemma DecimalHasNoComma(n: nat)
    ensures ',' !in Decimal(n)
  {
    var ds := Decimal(n);
    forall k | 0 <= k < |ds| ensures ds[k] != ',' {
      assert IsDigit(ds[k]);
    }
  }

  /** Every cell of a row read back from its encoding is the code written. */
  lemma EncodeRowRead(row: seq<int>, x: nat)
    requires |row| >= 1
    requires forall k :: 0 <= k < |row| ==> 0 <= row[k] <= 254
    requires x < |row|
    ensures TileCode(TileField(EncodeRow(row), x)) == row[x]
  {
    var fields := RowFields(row);
    forall k | 0 <= k < |fields| ensures ',' !in fields[k] {
      DecimalHasNoComma(row[k] + 1);
    }
    SplitJoin(fields, ',');
    assert TileField(EncodeRow(row), x) == Decimal(row[x] + 1);
    TileCodeOfDecimal(row[x]);
  }

  /** The layer format round-trips: a `data=` line followed by the encoded
      rows of a grid of codes in [0, 254] is read back as that grid. */
  lemma DecodeEncodedRows(lines: seq<string>, d: nat, grid: seq<seq<int>>, width: nat)
    requires width >= 1
    requires forall y :: 0 <= y < |grid| ==> |grid[y]| == width
    requires forall y, x :: 0 <= y < |grid| && 0 <= x < width ==> 0 <= grid[y][x] <= 254
    requires d + 1 + |grid| <= |lines|
    requires forall y :: 0 <= y < |grid| ==> lines[d + 1 + y] == EncodeRow(grid[y])
    ensures DecodeRows(lines, d, |grid|, width) == grid
  {
    var g := DecodeRows(lines, d, |grid|, width);
    forall y | 0 <= y < |grid| ensures g[y] == grid[y] {
      forall x | 0 <= x < width ensures g[y][x] == grid[y][x] {
        DecodeRowsAt(lines, d, |grid|, width, y, x);
        assert LineAt(lines, d + 1 + y) == EncodeRow(grid[y]);
        EncodeRowRead(grid[y], x);
      }
    }
  }

  // ---------------------------------------------------------------------
  // [Object Layer 1]

  /** A `location=` line under the current `type=`: a grid cell. */
  datatype Placement = Placement(kind: string, col: int, row: int)

  datatype ObjectScan = ObjectScan(placements: seq<Placement>, next: nat)

  /** The cell of `location=x,y`: the first two comma-separated fields; a
      missing second field leaves `yPosition` empty, which reads as 0. */
  function LocationOf(kind: string, value: string): Placement
  {
    var xs := GetLine(Open(value), ',', "");
    var ys := GetLine(xs.stream, ',', "");
    Placement(kind, Atoi(xs.field), Atoi(ys.field))
  }

  /** `location=` written from a cell reads back as that cell. */
  lemma LocationOfCell(kind: string, col: nat, row: nat)
    ensures LocationOf(kind, Decimal(col) + "," + Decimal(row)) == Placement(kind, col, row)
  {
    var value := Decimal(col) + "," + Decimal(row);
    DecimalHasNoComma(col);
    DecimalHasNoComma(row);
    assert value == Join([Decimal(col), Decimal(row)], ',');
    SplitJoin([Decimal(col), Decimal(row)], ',');
    GetLineSplit(Open(value), ',', "");
    GetLineSplit(GetLine(Open(value), ',', "").stream, ',', "");
    AtoiDecimal(col);
    AtoiDecimal(row);
  }

  /** The loop of `readEntityData` from `pos`, with `kind` the current
      `type` (it persists from one entry to the next and starts empty): the
      placements of the section in file order. */
  function ScanObjects(lines: seq<string>, pos: nat, kind: string): (r: ObjectScan)
    requires pos <= |lines|
    ensures pos <= r.next <= |lines|
    decreases |lines| - pos
  {
    if pos == |lines| then ObjectScan([], pos)
    else if lines[pos] == "" then ObjectScan([], pos + 1)
    else
      var key, value := KeyOf(lines[pos]), ValueOf(lines[pos]);
      if key == "type" then ScanObjects(lines, pos + 1, value)
      else if key == "location" then
        var rest := ScanObjects(lines, pos + 1, kind);
        ObjectScan([LocationOf(kind, value)] + rest.placements, rest.next)
      else ScanObjects(lines, pos + 1, kind)
  }

  /** The type in force at line `k` of a section that starts at `lo` with
      type `kind`: the value of the last `type=` line before `k`. */
  function KindAt(lines: seq<string>, lo: nat, k: nat, kind: string): string
    requires lo <= k <= |lines|
  {
    match LastValue(lines, lo, k, "type")
    case None => kind
    case Some(v) => v
  }

  /** The placement a line gives under type `kind`, if it is a
      `location=` line. */
  function EntryOf(line: string, kind: string): seq<Placement>
  {
    if KeyOf(line) == "location" then [LocationOf(kind, ValueOf(line))] else []
  }

  /** The placement of line `i` of a section that starts at `lo`. */
  function Entry(lines: seq<string>, lo: nat, i: nat, kind: string): seq<Placement>
    requires lo <= i < |lines|
  {
    EntryOf(lines[i], KindAt(lines, lo, i, kind))
  }

  /** The placements of lines[i..hi] in a section that starts at `lo`: every
      `location=` line, in file order, with the type in force at it. */
  function Locations(lines: seq<string>, lo: nat, i: nat, hi: nat, kind: string): (ps: seq<Placement>)
    requires lo <= i <= hi <= |lines|
    decreases hi - i
  {
    if i == hi then [] else Entry(lines, lo, i, kind) + Locations(lines, lo, i + 1, hi, kind)
  }

  /** The type in force after `line`: its value if it is a `type=` line. */
  function NextKind(line: string, kind: string): string
  {
    if KeyOf(line) == "type" then ValueOf(line) else kind
  }

  /** Each line hands the type in force on to the next. */
  lemma KindAtNext(lines: seq<string>, lo: nat, k: nat, kind: string)
    requires lo <= k < |lines|
    ensures KindAt(lines, lo, k + 1, kind) == NextKind(lines[k], KindAt(lines, lo, k, kind))
  {
  }

  /** One non-blank line of the entity loop. */
  lemma ScanObjectsStep(lines: seq<string>, pos: nat, kind: string)
    requires pos < |lines| && lines[pos] != ""
    ensures var rest := ScanObjects(lines, pos + 1, NextKind(lines[pos], kind));
            ScanObjects(lines, pos, kind) == ObjectScan(EntryOf(lines[pos], kind) + rest.placements, rest.next)
  {
  }

  /** The entity loop from any line of a section, with the type in force
      there, yields the rest of the section's placements. */
  lemma {:induction false} ScanObjectsFrom(lines: seq<string>, lo: nat, pos: nat, kind: string)
    requires lo <= pos <= |lines|
    ensures ScanObjects(lines, pos, KindAt(lines, lo, pos, kind)) ==
            ObjectScan(Locations(lines, lo, pos, BlockEnd(lines, pos), kind), After(lines, pos))
    decreases |lines| - pos
  {
    if pos < |lines| && lines[pos] != "" {
      ScanObjectsFrom(lines, lo, pos + 1, kind);
      KindAtNext(lines, lo, pos, kind);
      ScanObjectsStep(lines, pos, KindAt(lines, lo, pos, kind));
      assert BlockEnd(lines, pos) == BlockEnd(lines, pos + 1);
    }
  }

  /** The entity block's result: its placements are its `location=` lines
      in file order, each with the type of the last `type=` line before it
      (or the type it started with), and the stream is left after the
      block's blank line. */
  lemma ScanObjectsPlacements(lines: seq<string>, pos: nat, kind: string)
    requires pos <= |lines|
    ensures ScanObjects(lines, pos, kind) ==
            ObjectScan(Locations(lines, pos, pos, BlockEnd(lines, pos), kind), After(lines, pos))
  {
    assert KindAt(lines, pos, pos, kind) == kind;
    ScanObjectsFrom(lines, pos, pos, kind);
  }

  /** `placeEntity(type, x, y)` with the world position in tenths: "Player"
      and "King" (re)create that entity, every other type is ignored. */
  function Place(s: LevelState, kind: string, worldX: int, worldY: int): LevelState
  {
    if kind == "Player" then s.(player := Some(Actor(PlayerEntity, worldX, worldY + 1)))
    else if kind == "King" then s.(king := Some(Actor(KingEntity, worldX + 1, worldY)))
    else s
  }

  /** The placements of a section applied in order; `readEntityData`
      converts the cell to a world position before calling `placeEntity`. */
  function PlaceAll(s: LevelState, ps: seq<Placement>): LevelState
  {
    if ps == [] then s
    else
      var p := ps[|ps| - 1];
      Place(PlaceAll(s, ps[..|ps| - 1]), p.kind, TILE_SIZE * p.col, -TILE_SIZE * p.row)
  }

  lemma PlaceAllSnoc(s: LevelState, ps: seq<Placement>, p: Placement)
    ensures PlaceAll(s, ps + [p]) == Place(PlaceAll(s, ps), p.kind, TILE_SIZE * p.col, -TILE_SIZE * p.row)
  {
    assert (ps + [p])[..|ps|] == ps;
  }

  /** The last placement of the given type. */
  function LastOfKind(ps: seq<Placement>, kind: string): (r: Option<Placement>)
    ensures r == None <==> forall k :: 0 <= k < |ps| ==> ps[k].kind != kind
    ensures r.Some? ==> exists k :: 0 <= k < |ps| && ps[k] == r.value && r.value.kind == kind &&
                                    (forall j :: k < j < |ps| ==> ps[j].kind != kind)
  {
    if ps == [] then None
    else if ps[|ps| - 1].kind == kind then Some(ps[|ps| - 1])
    else LastOfKind(ps[..|ps| - 1], kind)
  }

  /** Placing entities changes only the player and the king: each ends at
      the spawn point of its last placement, or is unchanged when the
      section places none of its type. */
  lemma {:induction false} PlaceAllLatest(s: LevelState, ps: seq<Placement>)
    ensures var t := PlaceAll(s, ps);
            t.width == s.width && t.height == s.height && t.tiles == s.tiles
    ensures PlaceAll(s, ps).player ==
            match LastOfKind(ps, "Player")
            case None => s.player
            case Some(p) => Some(Actor(PlayerEntity, PlayerSpawnX(p.col), PlayerSpawnY(p.row)))
    ensures PlaceAll(s, ps).king ==
            match LastOfKind(ps, "King")
            case None => s.king
            case Some(p) => Some(Actor(KingEntity, KingSpawnX(p.col), KingSpawnY(p.row)))
  {
    if ps != [] {
      PlaceAllLatest(s, ps[..|ps| - 1]);
    }
  }

  // ---------------------------------------------------------------------
  // setupScene

  /** How `setupScene` ends: the map is drawn, or a rejected header made it
      return before drawing, or a bad size ended the program. */
  datatype SceneOutcome = Drawn | HeaderRejected | Aborted

  datatype SceneResult = SceneResult(outcome: SceneOutcome, state: LevelState, stop: nat)

  /** The loop of `setupScene` from `pos`: the three section lines hand the
      stream to their reader; every other line is skipped. */
  function Scene(lines: seq<string>, pos: nat, s: LevelState): (r: SceneResult)
    requires pos <= |lines|
    ensures pos <= r.stop <= |lines|
    ensures r.outcome == Drawn ==> r.stop == |lines|
    decreases |lines| - pos
  {
    if pos == |lines| then SceneResult(Drawn, s, pos)
    else if lines[pos] == "[header]" then
      var h := ScanHeader(lines, pos + 1, -1, -1);
      var s' := ApplyHeader(s, h);
      match HeaderOutcome(h.width, h.height)
      case Rejected => SceneResult(HeaderRejected, s', h.next)
      case BadSize => SceneResult(Aborted, s', h.next)
      case Accepted => Scene(lines, h.next, s')
    else if lines[pos] == "[layer]" then
      var l := ScanLayer(lines, pos + 1, s.height, None);
      Scene(lines, l.next, ApplyLayer(s, lines, l.data))
    else if lines[pos] == "[Object Layer 1]" then
      var o := ScanObjects(lines, pos + 1, "");
      Scene(lines, o.next, PlaceAll(s, o.placements))
    else Scene(lines, pos + 1, s)
  }

  /** The shape invariant of the level: when both sizes are positive the
      tile rows are exactly `height` rows of `width` cells. */
  ghost predicate Shaped(s: LevelState)
  {
    s.height > 0 && s.width > 0 ==>
      |s.tiles| == s.height && forall y :: 0 <= y < s.height ==> |s.tiles[y]| == s.width
  }

  /** Every stored tile code is in [0, 254]. */
  ghost predicate CodesInRange(s: LevelState)
  {
    forall y, x :: 0 <= y < |s.tiles| && 0 <= x < |s.tiles[y]| ==> 0 <= s.tiles[y][x] <= 254
  }

  /** Loading keeps the shape invariant and keeps every tile code in
      [0, 254]. */
  lemma {:induction false} SceneInvariant(lines: seq<string>, pos: nat, s: LevelState)
    requires pos <= |lines|
    requires Shaped(s) && CodesInRange(s)
    ensures Shaped(Scene(lines, pos, s).state) && CodesInRange(Scene(lines, pos, s).state)
    decreases |lines| - pos
  {
    if pos < |lines| {
      if lines[pos] == "[header]" {
        var h := ScanHeader(lines, pos + 1, -1, -1);
        if HeaderOutcome(h.width, h.height) == Accepted {
          SceneInvariant(lines, h.next, ApplyHeader(s, h));
        }
      } else if lines[pos] == "[layer]" {
        var l := ScanLayer(lines, pos + 1, s.height, None);
        SceneInvariant(lines, l.next, ApplyLayer(s, lines, l.data));
      } else if lines[pos] == "[Object Layer 1]" {
        var o := ScanObjects(lines, pos + 1, "");
        PlaceAllLatest(s, o.placements);
        SceneInvariant(lines, o.next, PlaceAll(s, o.placements));
      } else {
        SceneInvariant(lines, pos + 1, s);
      }
    }
  }

  // ---------------------------------------------------------------------
  // A rejected header ends the load: nothing after it is read.

  /** `lines2` agrees with `lines` on the first `k` lines. */
  ghost predicate Agree(lines: seq<string>, lines2: seq<string>, k: nat)
  {
    k <= |lines| && k <= |lines2| && lines[..k] == lines2[..k]
  }

  lemma AgreeAt(lines: seq<string>, lines2: seq<string>, k: nat, i: nat)
    requires Agree(lines, lines2, k) && i < k
    ensures lines[i] == lines2[i]
  {
    assert lines[i] == lines[..k][i];
  }

  lemma {:induction false} ScanHeaderAgrees(lines: seq<string>, lines2: seq<string>, k: nat,
                                            pos: nat, width: int, height: int)
    requires pos <= |lines|
    requires ScanHeader(lines, pos, width, height).next <= k < |lines|
    requires Agree(lines, lines2, k)
    ensures pos <= |lines2| && ScanHeader(lines2, pos, width, height) == ScanHeader(lines, pos, width, height)
    decreases |lines| - pos
  {
    AgreeAt(lines, lines2, k, pos);
    if lines[pos] != "" {
      var key, value := KeyOf(lines[pos]), ValueOf(lines[pos]);
      ScanHeaderAgrees(lines, lines2, k, pos + 1,
                       if key == "width" then Atoi(value) else width,
                       if key == "height" then Atoi(value) else height);
    }
  }

  lemma DataOkAgrees(lines: seq<string>, lines2: seq<string>, k: nat, pos: nat, height: int, data: Option<nat>)
    requires pos <= k < |lines|
    requires Agree(lines, lines2, k)
    requires DataOk(lines, pos, height, data)
    ensures DataOk(lines2, pos, height, data)
  {
    if data.Some? {
      AgreeAt(lines, lines2, k, data.value);
    }
  }

  lemma {:induction false} ScanLayerAgrees(lines: seq<string>, lines2: seq<string>, k: nat,
                                           pos: nat, height: int, data: Option<nat>)
    requires pos <= |lines| && DataOk(lines, pos, height, data)
    requires ScanLayer(lines, pos, height, data).next <= k < |lines|
    requires Agree(lines, lines2, k)
    ensures pos <= |lines2| && DataOk(lines2, pos, height, data)
    ensures ScanLayer(lines2, pos, height, data) == ScanLayer(lines, pos, height, data)
    decreases |lines| - pos
  {
    AgreeAt(lines, lines2, k, pos);
    DataOkAgrees(lines, lines2, k, pos, height, data);
    if lines[pos] != "" {
      if KeyOf(lines[pos]) == "data" {
        var next := Min(pos + 1 + RowCount(height), |lines|);
        assert next == pos + 1 + RowCount(height);
        ScanLayerAgrees(lines, lines2, k, next, height, Some(pos));
      } else {
        ScanLayerAgrees(lines, lines2, k, pos + 1, height, data);
      }
    }
  }

  lemma {:induction false} ScanObjectsAgrees(lines: seq<string>, lines2: seq<string>, k: nat,
                                             pos: nat, kind: string)
    requires pos <= |lines|
    requires ScanObjects(lines, pos, kind).next <= k < |lines|
    requires Agree(lines, lines2, k)
    ensures pos <= |lines2| && ScanObjects(lines2, pos, kind) == ScanObjects(lines, pos, kind)
    decreases |lines| - pos
  {
    AgreeAt(lines, lines2, k, pos);
    if lines[pos] != "" {
      var key, value := KeyOf(lines[pos]), ValueOf(lines[pos]);
      if key == "type" {
        ScanObjectsAgrees(lines, lines2, k, pos + 1, value);
      } else {
        ScanObjectsAgrees(lines, lines2, k, pos + 1, kind);
      }
    }
  }

  lemma DecodeRowsAgree(lines: seq<string>, lines2: seq<string>, k: nat, d: nat, height: nat, width: nat)
    requires d + 1 + height <= k
    requires Agree(lines, lines2, k)
    ensures DecodeRows(lines2, d, height, width) == DecodeRows(lines, d, height, width)
  {
    var g, g2 := DecodeRows(lines, d, height, width), DecodeRows(lines2, d, height, width);
    forall y | 0 <= y < height ensures g2[y] == g[y] {
      AgreeAt(lines, lines2, k, d + 1 + y);
      assert LineAt(lines2, d + 1 + y) == LineAt(lines, d + 1 + y);
    }
  }

  lemma {:induction false} SceneAgrees(lines: seq<string>, lines2: seq<string>, k: nat,
                                       pos: nat, s: LevelState)
    requires pos <= |lines|
    requires Scene(lines, pos, s).outcome != Drawn
    requires Scene(lines, pos, s).stop <= k < |lines|
    requires Agree(lines, lines2, k)
    ensures pos <= |lines2| && Scene(lines2, pos, s) == Scene(lines, pos, s)
    decreases |lines| - pos
  {
    AgreeAt(lines, lines2, k, pos);
    if lines[pos] == "[header]" {
      var h := ScanHeader(lines, pos + 1, -1, -1);
      ScanHeaderAgrees(lines, lines2, k, pos + 1, -1, -1);
      if HeaderOutcome(h.width, h.height) == Accepted {
        SceneAgrees(lines, lines2, k, h.next, ApplyHeader(s, h));
      }
    } else if lines[pos] == "[layer]" {
      var l := ScanLayer(lines, pos + 1, s.height, None);
      ScanLayerAgrees(lines, lines2, k, pos + 1, s.height, None);
      if l.data.Some? && s.height > 0 && s.width > 0 {
        DecodeRowsAgree(lines, lines2, k, l.data.value, s.height, s.width);
      }
      SceneAgrees(lines, lines2, k, l.next, ApplyLayer(s, lines, l.data));
    } else if lines[pos] == "[Object Layer 1]" {
      var o := ScanObjects(lines, pos + 1, "");
      ScanObjectsAgrees(lines, lines2, k, pos + 1, "");
      SceneAgrees(lines, lines2, k, o.next, PlaceAll(s, o.placements));
    } else {
      SceneAgrees(lines, lines2, k, pos + 1, s);
    }
  }

  /** When loading stops at a rejected (or badly sized) header, `setupScene`
      has returned without looking at any later line: replacing everything
      after the header block by other lines gives the same result. */
  lemma RejectedHeaderEndsLoad(lines: seq<string>, s: LevelState, tail: seq<string>)
    requires Scene(lines, 0, s).outcome != Drawn
    requires Scene(lines, 0, s).stop < |lines|
    ensures Scene(lines[..Scene(lines, 0, s).stop] + tail, 0, s) == Scene(lines, 0, s)
  {
    var stop := Scene(lines, 0, s).stop;
    var lines2 := lines[..stop] + tail;
    assert lines2[..stop] == lines[..stop];
    SceneAgrees(lines, lines2, stop, 0, s);
  }
}
