/**
 * One game map: its layout (size, spawn pools, obstacles, boundaries, tile
 * grid and tile types), the spawn-point draws, the boundary helpers, and
 * the server's coarse tile and obstacle checks.
 *
 * The layout is fixed when the map is built; only the set of recently used
 * player spawn indices changes afterwards.
 */
module Maps {
  import opened Shapes

  // ---------------------------------------------------------------------
  // Map descriptions as they arrive (built-in literal or parsed JSON)

  /** The optional `boundaries` object; each entry may be missing. */
  datatype BoundsSpec = BoundsSpec(minX: Option<int>, minY: Option<int>, maxX: Option<int>, maxY: Option<int>)

  /** The walkable rectangle `[minX, maxX] x [minY, maxY]` used for clamping and random spawns. */
  datatype Bounds = Bounds(minX: int, minY: int, maxX: int, maxY: int)

  /** The `mapData` argument of the constructor; every entry may be missing. */
  datatype MapSpec = MapSpec(
    id: Option<string>,
    name: Option<string>,
    width: Option<int>,
    height: Option<int>,
    playerSpawnPoints: Option<seq<Point>>,
    enemySpawnPoints: Option<seq<Point>>,
    obstacles: Option<seq<Rect>>,
    boundaries: Option<BoundsSpec>,
    tileSize: Option<nat>,
    tileTypes: Option<TileTypes>,
    tileMap: Option<Grid>)

  const DEFAULT_WIDTH := 800
  const DEFAULT_HEIGHT := 600
  const DEFAULT_TILE_SIZE: Pos := 32
  /** Default radius of the map's own collision checks. */
  const DEFAULT_CHECK_RADIUS := 10
  /** Default `count` of `getEnemySpawnPoints`. */
  const DEFAULT_ENEMY_COUNT := 5

  const DEFAULT_PLAYER_SPAWNS: seq<Point> := [Point(200, 200), Point(300, 200), Point(400, 200), Point(500, 200)]
  const DEFAULT_ENEMY_SPAWNS: seq<Point> :=
    [Point(150, 150), Point(650, 150), Point(150, 450), Point(650, 450), Point(400, 300)]

  /** The default tile types: grass, dirt and sand can be walked on, stone and water cannot. */
  const DEFAULT_TILE_TYPES: TileTypes := map[
    "grass" := TileType(Some(true), false),
    "stone" := TileType(Some(false), false),
    "water" := TileType(Some(false), false),
    "dirt" := TileType(Some(true), false),
    "sand" := TileType(Some(true), false)]

  /** `(b && b.minX) || 11` and so on; the maxima default to `width - 21` and `height - 21`. */
  function DeriveBounds(b: Option<BoundsSpec>, width: int, height: int): (r: Bounds)
    ensures b.None? ==> r == Bounds(11, 11, width - 21, height - 21)
    ensures r.minX != 0 && r.minY != 0
    ensures b.Some? ==>
      && (b.value.minX.Some? && b.value.minX.value != 0 ==> r.minX == b.value.minX.value)
      && (b.value.minY.Some? && b.value.minY.value != 0 ==> r.minY == b.value.minY.value)
      && (b.value.maxX.Some? && b.value.maxX.value != 0 ==> r.maxX == b.value.maxX.value)
      && (b.value.maxY.Some? && b.value.maxY.value != 0 ==> r.maxY == b.value.maxY.value)
      && (b.value.minX.None? || b.value.minX == Some(0) ==> r.minX == 11)
      && (b.value.minY.None? || b.value.minY == Some(0) ==> r.minY == 11)
      && (b.value.maxX.None? || b.value.maxX == Some(0) ==> r.maxX == width - 21)
      && (b.value.maxY.None? || b.value.maxY == Some(0) ==> r.maxY == height - 21)
  {
    match b
    case None => Bounds(11, 11, width - 21, height - 21)
    case Some(s) => Bounds(OrInt(s.minX, 11), OrInt(s.minY, 11), OrInt(s.maxX, width - 21), OrInt(s.maxY, height - 21))
  }

  /** `mapData.tileSize || 32`. */
  function TileSizeFrom(t: Option<nat>): (s: Pos)
    ensures t.None? || t == Some(0) ==> s == DEFAULT_TILE_SIZE
    ensures t.Some? && t.value > 0 ==> s == t.value
  {
    if t.Some? && t.value > 0 then t.value else DEFAULT_TILE_SIZE
  }

  // ---------------------------------------------------------------------
  // The generated default terrain

  const DEFAULT_TERRAIN: set<string> := {"grass", "stone", "dirt", "water"}

  /**
   * Water is placed only where the cell lies more than `0.4 * tilesX` cells
   * from the grid centre `(tilesX/2, tilesY/2)`; both sides are scaled by 10
   * and squared to stay in integers.
   */
  predicate FarFromCentre(x: int, y: int, tilesX: int, tilesY: int) {
    25 * ((2 * x - tilesX) * (2 * x - tilesX) + (2 * y - tilesY) * (2 * y - tilesY)) > 16 * tilesX * tilesX
  }

  /** A terrain choice `generateDefaultTileMap` can make for cell `(x, y)`. */
  predicate TerrainChoice(kind: string, x: int, y: int, tilesX: int, tilesY: int) {
    kind in {"grass", "stone", "dirt"} || (kind == "water" && FarFromCentre(x, y, tilesX, tilesY))
  }

  /** The shape `generateDefaultTileMap` guarantees: `tilesY` rows of `tilesX` cells of default terrain. */
  predicate GeneratedShape(g: Grid, tilesX: int, tilesY: int) {
    && |g| == Max(0, tilesY)
    && (forall y :: 0 <= y < |g| ==> |g[y]| == Max(0, tilesX))
    && (forall y, x :: 0 <= y < |g| && 0 <= x < |g[y]| ==> TerrainChoice(g[y][x], x, y, tilesX, tilesY))
  }

  /**
   * `generateDefaultTileMap`: the noise and the random draws that pick each
   * cell are left open; the shape of the grid and the rule that water lies
   * away from the centre are kept.
   */
  method GenerateDefaultTileMap(tilesX: int, tilesY: int) returns (g: Grid)
    ensures GeneratedShape(g, tilesX, tilesY)
  {
    g := [];
    var y := 0;
    while y < tilesY
      invariant 0 <= y == |g| && (y <= tilesY || y == 0)
      invariant forall y' :: 0 <= y' < |g| ==> |g[y']| == Max(0, tilesX)
      invariant forall y', x :: 0 <= y' < |g| && 0 <= x < |g[y']| ==> TerrainChoice(g[y'][x], x, y', tilesX, tilesY)
    {
      var row: seq<string> := [];
      var x := 0;
      while x < tilesX
        invariant 0 <= x == |row| && (x <= tilesX || x == 0)
        invariant forall x' :: 0 <= x' < |row| ==> TerrainChoice(row[x'], x', y, tilesX, tilesY)
      {
        assert TerrainChoice("grass", x, y, tilesX, tilesY);
        var kind :| TerrainChoice(kind, x, y, tilesX, tilesY);
        row := row + [kind];
        x := x + 1;
      }
      g := g + [row];
      y := y + 1;
    }
  }

  /** Every generated cell names a default tile type, so lookups in the default types never miss. */
  lemma GeneratedCellsHaveDefaultTypes(g: Grid, tilesX: int, tilesY: int, x: int, y: int)
    requires GeneratedShape(g, tilesX, tilesY)
    requires 0 <= y < |g| && 0 <= x < |g[y]|
    ensures g[y][x] in DEFAULT_TERRAIN && g[y][x] in DEFAULT_TILE_TYPES
    ensures Solid(DEFAULT_TILE_TYPES[g[y][x]]) <==> g[y][x] in {"stone", "water"}
  {
  }

  // ---------------------------------------------------------------------
  // Enemy spawn draws

  /** A value of `Math.random() * (hi - lo) + lo` restricted to integers. */
  predicate RandomBetween(lo: int, hi: int, v: int) {
    if lo < hi then lo <= v < hi
    else if lo == hi then v == lo
    else hi < v <= lo
  }

  predicate InRandomArea(b: Bounds, p: Point) {
    RandomBetween(b.minX, b.maxX, p.x) && RandomBetween(b.minY, b.maxY, p.y)
  }

  /** How many pool points a draw of `count` spawns takes from a pool of `poolSize`: one per spawn, while any are left. */
  function PoolDraws(count: int, poolSize: nat): (k: nat)
    ensures k <= poolSize && k <= Max(0, count)
    ensures k == poolSize || k == Max(0, count)
  {
    Min(Max(0, count), poolSize)
  }

  /**
   * The number of pool draws the loop `for (i = 0; i < Math.min(count,
   * available.length); i++)` makes when each pass also removes one entry
   * from `available`: the bound shrinks while `i` grows.
   */
  function AsWrittenDraws(count: int, available: nat, i: nat): nat
    decreases available
  {
    if i < Min(count, available) then 1 + AsWrittenDraws(count, available - 1, i + 1) else 0
  }

  /** One pass of the as-written loop is one more draw; once the re-read bound is reached there are none. */
  lemma AsWrittenStep(count: int, available: nat, i: nat)
    ensures i < Min(count, available) ==> AsWrittenDraws(count, available, i) == 1 + AsWrittenDraws(count, available - 1, i + 1)
    ensures !(i < Min(count, available)) ==> AsWrittenDraws(count, available, i) == 0
  {
  }

  /** The as-written loop stops after `min(count - i, ceil((available - i) / 2))` passes. */
  lemma {:induction false} AsWrittenDrawsClosedForm(count: int, available: nat, i: nat)
    ensures AsWrittenDraws(count, available, i) == Max(0, Min(count - i, (available - i + 1) / 2))
    decreases available
  {
    if i < Min(count, available) {
      AsWrittenDrawsClosedForm(count, available - 1, i + 1);
    }
  }

  /** So from a pool of `P` points it takes only `min(count, ceil(P/2))` of them, fewer than `PoolDraws` whenever `count` and `P` both exceed `ceil(P/2)`. */
  lemma AsWrittenTakesAtMostHalf(count: int, poolSize: nat)
    ensures AsWrittenDraws(count, poolSize, 0) == Min(Max(0, count), (poolSize + 1) / 2)
    ensures AsWrittenDraws(count, poolSize, 0) <= PoolDraws(count, poolSize)
    ensures count > (poolSize + 1) / 2 && poolSize > (poolSize + 1) / 2
        ==> AsWrittenDraws(count, poolSize, 0) < PoolDraws(count, poolSize)
  {
    AsWrittenDrawsClosedForm(count, poolSize, 0);
  }

  /** With the default count of 5: a five-point pool yields 3 pool spawns instead of 5, and a two-point pool 1 instead of 2. */
  lemma AsWrittenDefaultCount()
    ensures AsWrittenDraws(DEFAULT_ENEMY_COUNT, |DEFAULT_ENEMY_SPAWNS|, 0) == 3
    ensures PoolDraws(DEFAULT_ENEMY_COUNT, |DEFAULT_ENEMY_SPAWNS|) == 5
    ensures AsWrittenDraws(DEFAULT_ENEMY_COUNT, 2, 0) == 1 && PoolDraws(DEFAULT_ENEMY_COUNT, 2) == 2
  {
    AsWrittenTakesAtMostHalf(DEFAULT_ENEMY_COUNT, 5);
    AsWrittenTakesAtMostHalf(DEFAULT_ENEMY_COUNT, 2);
  }

  /** Removing entry `r` from `a` and the removed entry together make up `a`. */
  lemma SpliceMultiset<T>(a: seq<T>, r: int)
    requires 0 <= r < |a|
    ensures multiset(a[..r] + a[r + 1..]) + multiset{a[r]} == multiset(a)
  {
    assert a == a[..r] + [a[r]] + a[r + 1..];
  }

  /** Moving the point at `r` from the pool still to draw from to the points drawn keeps every pool point accounted for once. */
  lemma SpliceStep<T>(drawn: seq<T>, available: seq<T>, pool: seq<T>, r: int)
    requires 0 <= r < |available|
    requires multiset(drawn) + multiset(available) == multiset(pool)
    ensures multiset(drawn + [available[r]]) + multiset(available[..r] + available[r + 1..]) == multiset(pool)
  {
    SpliceMultiset(available, r);
  }

  /**
   * The outcome of a spawn draw: exactly `max(0, count)` points, of which
   * the first `k` are distinct draws from the pool (no pool entry used more
   * often than it occurs) and the rest random points inside the boundaries.
   */
  ghost predicate SpawnDraw(spawns: seq<Point>, count: int, k: nat, pool: seq<Point>, b: Bounds) {
    && |spawns| == Max(0, count)
    && k <= |spawns|
    && multiset(spawns[..k]) <= multiset(pool)
    && (forall i :: k <= i < |spawns| ==> InRandomArea(b, spawns[i]))
  }

  // ---------------------------------------------------------------------
  // The map

  /** Indices `{0, ..., n-1}`. */
  function Indices(n: nat): (r: set<int>)
    ensures forall i :: i in r <==> 0 <= i < n
  {
    if n == 0 then {} else Indices(n - 1) + {n - 1}
  }

  lemma {:induction false} IndicesCount(n: nat)
    ensures |Indices(n)| == n
  {
    if n > 0 {
      IndicesCount(n - 1);
    }
  }

  /** The used set after the reset at the start of `getPlayerSpawnPoint`: cleared once it covers the pool. */
  function AfterReset(used: set<int>, n: nat): set<int> {
    if |used| >= n then {} else used
  }

  /** One call of `getPlayerSpawnPoint` on a non-empty pool of `n` points picks index `k` and moves the used set from `before` to `after`. */
  ghost predicate PickStep(n: nat, before: set<int>, k: int, after: set<int>) {
    0 <= k < n && k !in AfterReset(before, n) && after == AfterReset(before, n) + {k}
  }

  /** While fewer than `n` indices are used, some index below `n` is free. */
  lemma FreeIndexExists(used: set<int>, n: nat)
    requires |used| < n
    ensures exists k :: 0 <= k < n && k !in used
  {
    IndicesCount(n);
    if forall k :: 0 <= k < n ==> k in used {
      SubsetCount(Indices(n), used);
    }
  }

  class GameMap {
    const id: string
    const name: string
    const width: int
    const height: int
    const playerSpawnPoints: seq<Point>
    const enemySpawnPoints: seq<Point>
    const obstacles: seq<Rect>
    const boundaries: Bounds
    const tileSize: Pos
    const tilesX: int
    const tilesY: int
    const tileTypes: TileTypes
    const tileMap: Grid
    /** The description the map was built from. */
    ghost const spec: MapSpec
    /** Indices of player spawn points handed out since the last reset. */
    var usedPlayerSpawns: set<int>

    /** The grid counts cover the map. */
    ghost predicate Valid() {
      tilesX == CeilDiv(width, tileSize) && tilesY == CeilDiv(height, tileSize)
    }

    /** The used spawn indices point into the pool. */
    ghost predicate SpawnsTracked()
      reads this`usedPlayerSpawns
    {
      forall i :: i in usedPlayerSpawns ==> 0 <= i < |playerSpawnPoints|
    }

    /**
     * `new Map(mapData)`: each entry falls back to its default when missing
     * (and, for the names and numbers, when empty or zero); the grid counts
     * are rounded up so the tiles cover the whole map.
     */
    constructor (spec: MapSpec)
      ensures Valid() && SpawnsTracked() && usedPlayerSpawns == {} && this.spec == spec
      ensures id == OrStr(spec.id, "default") && name == OrStr(spec.name, "Default Map")
      ensures width == OrInt(spec.width, DEFAULT_WIDTH) && height == OrInt(spec.height, DEFAULT_HEIGHT)
      ensures playerSpawnPoints == spec.playerSpawnPoints.GetOr(DEFAULT_PLAYER_SPAWNS)
      ensures enemySpawnPoints == spec.enemySpawnPoints.GetOr(DEFAULT_ENEMY_SPAWNS)
      ensures obstacles == spec.obstacles.GetOr([])
      ensures boundaries == DeriveBounds(spec.boundaries, width, height)
      ensures tileSize == TileSizeFrom(spec.tileSize)
      ensures tilesX * tileSize - tileSize < width <= tilesX * tileSize
      ensures tilesY * tileSize - tileSize < height <= tilesY * tileSize
      ensures tileTypes == spec.tileTypes.GetOr(DEFAULT_TILE_TYPES)
      ensures spec.tileMap.Some? ==> tileMap == spec.tileMap.value
      ensures spec.tileMap.None? ==> GeneratedShape(tileMap, tilesX, tilesY)
    {
      var w := OrInt(spec.width, DEFAULT_WIDTH);
      var h := OrInt(spec.height, DEFAULT_HEIGHT);
      var s := TileSizeFrom(spec.tileSize);
      var tx, ty := CeilDiv(w, s), CeilDiv(h, s);
      var grid: Grid;
      if spec.tileMap.Some? {
        grid := spec.tileMap.value;
      } else {
        grid := GenerateDefaultTileMap(tx, ty);
      }
      id := OrStr(spec.id, "default");
      name := OrStr(spec.name, "Default Map");
      width := w;
      height := h;
      playerSpawnPoints := spec.playerSpawnPoints.GetOr(DEFAULT_PLAYER_SPAWNS);
      enemySpawnPoints := spec.enemySpawnPoints.GetOr(DEFAULT_ENEMY_SPAWNS);
      obstacles := spec.obstacles.GetOr([]);
      boundaries := DeriveBounds(spec.boundaries, w, h);
      tileSize := s;
      tilesX := tx;
      tilesY := ty;
      tileTypes := spec.tileTypes.GetOr(DEFAULT_TILE_TYPES);
      tileMap := grid;
      this.spec := spec;
      usedPlayerSpawns := {};
    }

    /**
     * `getPlayerSpawnPoint`: once every index has been used the set is
     * cleared; then a random unused index is picked and marked. An empty
     * pool gives no point.
     */
    method GetPlayerSpawnPoint() returns (sp: Option<Point>)
      modifies this`usedPlayerSpawns
      ensures old(SpawnsTracked()) ==> SpawnsTracked()
      ensures sp.None? <==> |playerSpawnPoints| == 0
      ensures sp.None? ==> usedPlayerSpawns == {}
      ensures sp.Some? ==> exists k :: PickStep(|playerSpawnPoints|, old(usedPlayerSpawns), k, usedPlayerSpawns)
                                    && sp.value == playerSpawnPoints[k]
    {
      var n := |playerSpawnPoints|;
      if |usedPlayerSpawns| >= n {
        usedPlayerSpawns := {};
      }
      assert usedPlayerSpawns == AfterReset(old(usedPlayerSpawns), n);
      var available: seq<int> := [];
      var i := 0;
      while i < n
        invariant 0 <= i <= n
        invariant forall j :: j in available <==> 0 <= j < i && j !in usedPlayerSpawns
      {
        if i !in usedPlayerSpawns {
          available := available + [i];
        }
        i := i + 1;
      }
      if n > 0 {
        FreeIndexExists(usedPlayerSpawns, n);
        ghost var free :| 0 <= free < n && free !in usedPlayerSpawns;
        assert free in available;
      }
      if |available| == 0 {
        return None;
      }
      var r :| 0 <= r < |available|;
      var k := available[r];
      assert k in available;
      usedPlayerSpawns := usedPlayerSpawns + {k};
      sp := Some(playerSpawnPoints[k]);
      assert PickStep(n, old(usedPlayerSpawns), k, usedPlayerSpawns);
    }

    /**
     * `getEnemySpawnPoints(count)` with the pool loop bounded by the count
     * fixed before the loop: `min(count, pool size)` distinct pool points,
     * then random points inside the boundaries up to `count`.
     */
    method GetEnemySpawnPoints(count: Option<int>) returns (spawns: seq<Point>)
      ensures var c := count.GetOr(DEFAULT_ENEMY_COUNT);
        SpawnDraw(spawns, c, PoolDraws(c, |enemySpawnPoints|), enemySpawnPoints, boundaries)
    {
      var c := count.GetOr(DEFAULT_ENEMY_COUNT);
      var available := enemySpawnPoints;
      var draws := PoolDraws(c, |enemySpawnPoints|);
      spawns := [];
      while |spawns| < draws
        invariant |spawns| <= draws
        invariant |available| == |enemySpawnPoints| - |spawns|
        invariant multiset(spawns) + multiset(available) == multiset(enemySpawnPoints)
      {
        var r :| 0 <= r < |available|;
        SpliceStep(spawns, available, enemySpawnPoints, r);
        spawns := spawns + [available[r]];
        available := available[..r] + available[r + 1..];
      }
      assert spawns[..draws] == spawns;
      spawns := FillRandom(spawns, c, draws);
    }

    /**
     * `getEnemySpawnPoints(count)` as written: the loop bound
     * `Math.min(count, availableSpawns.length)` is re-read after every
     * removal, so fewer pool points are drawn (see `AsWrittenTakesAtMostHalf`).
     */
    method GetEnemySpawnPointsAsWritten(count: Option<int>) returns (spawns: seq<Point>)
      ensures var c := count.GetOr(DEFAULT_ENEMY_COUNT);
        SpawnDraw(spawns, c, AsWrittenDraws(c, |enemySpawnPoints|, 0), enemySpawnPoints, boundaries)
    {
      var c := count.GetOr(DEFAULT_ENEMY_COUNT);
      spawns := DrawPoolAsWritten(c);
      AsWrittenTakesAtMostHalf(c, |enemySpawnPoints|);
      spawns := FillRandom(spawns, c, |spawns|);
    }

    /** The first loop of `getEnemySpawnPoints` as written: distinct pool points, while fewer than the re-read bound are drawn. */
    method DrawPoolAsWritten(c: int) returns (spawns: seq<Point>)
      ensures |spawns| == AsWrittenDraws(c, |enemySpawnPoints|, 0)
      ensures multiset(spawns) <= multiset(enemySpawnPoints)
    {
      var available := enemySpawnPoints;
      spawns := [];
      ghost var total := AsWrittenDraws(c, |enemySpawnPoints|, 0);
      var i: nat := 0;
      while i < Min(c, |available|)
        invariant i == |spawns|
        invariant |available| == |enemySpawnPoints| - i
        invariant multiset(spawns) + multiset(available) == multiset(enemySpawnPoints)
        invariant i + AsWrittenDraws(c, |available|, i) == total
      {
        AsWrittenStep(c, |available|, i);
        var r :| 0 <= r < |available|;
        SpliceStep(spawns, available, enemySpawnPoints, r);
        spawns := spawns + [available[r]];
        available := available[..r] + available[r + 1..];
        i := i + 1;
      }
      AsWrittenStep(c, |available|, i);
    }

    /** The second loop of `getEnemySpawnPoints`: random points inside the boundaries until there are `count`. */
    method FillRandom(drawn: seq<Point>, count: int, k: nat) returns (spawns: seq<Point>)
      requires k == |drawn| <= Max(0, count)
      requires multiset(drawn) <= multiset(enemySpawnPoints)
      ensures SpawnDraw(spawns, count, k, enemySpawnPoints, boundaries)
    {
      spawns := drawn;
      while |spawns| < count
        invariant k <= |spawns| <= Max(0, count)
        invariant spawns[..k] == drawn
        invariant forall i :: k <= i < |spawns| ==> InRandomArea(boundaries, spawns[i])
      {
        assert InRandomArea(boundaries, Point(boundaries.minX, boundaries.minY));
        var p: Point :| InRandomArea(boundaries, p);
        spawns := spawns + [p];
      }
    }

    /** `isValidPosition`: inside the boundaries, edges included; with non-empty boundaries, exactly the positions clamping leaves alone. */
    function IsValidPosition(x: int, y: int): (r: bool)
      ensures r ==> ClampPosition(x, y) == Point(x, y)
      ensures boundaries.minX <= boundaries.maxX && boundaries.minY <= boundaries.maxY && ClampPosition(x, y) == Point(x, y) ==> r
    {
      boundaries.minX <= x <= boundaries.maxX && boundaries.minY <= y <= boundaries.maxY
    }

    /** `clampPosition`: each coordinate moved to the nearest value inside the boundaries. */
    function ClampPosition(x: int, y: int): (p: Point)
      ensures p.x == x || p.x == boundaries.minX || p.x == boundaries.maxX
      ensures p.y == y || p.y == boundaries.minY || p.y == boundaries.maxY
      ensures boundaries.minX <= x <= boundaries.maxX ==> p.x == x
      ensures boundaries.minY <= y <= boundaries.maxY ==> p.y == y
    {
      Point(Clamp(boundaries.minX, boundaries.maxX, x), Clamp(boundaries.minY, boundaries.maxY, y))
    }

    /** `checkObstacleCollision` (radius default 10): some obstacle meets the circle's bounding box. */
    method CheckObstacleCollision(x: int, y: int, radius: Option<int>) returns (collides: bool)
      ensures collides == ObstaclesBlock(obstacles, x, y, radius.GetOr(DEFAULT_CHECK_RADIUS))
    {
      var r := radius.GetOr(DEFAULT_CHECK_RADIUS);
      var i := 0;
      while i < |obstacles|
        invariant i <= |obstacles|
        invariant forall j :: 0 <= j < i ==> !BoxOverlaps(x, y, r, obstacles[j])
      {
        if BoxOverlaps(x, y, r, obstacles[i]) {
          return true;
        }
        i := i + 1;
      }
      return false;
    }

    /** Cell `(tx, ty)` lies in the grid counts and names a known type that is not walkable or has `collision` set. */
    predicate SolidCell(tx: int, ty: int) {
      && 0 <= ty < tilesY && 0 <= tx < tilesX
      && var t := TypeOf(tileTypes, CellAt(tileMap, tx, ty));
      && t.Some? && Solid(t.value)
    }

    /** The cells `checkTileCollision` scans: those under the bounding box `[x-r, x+r] x [y-r, y+r]`. */
    predicate InBox(x: int, y: int, r: int, tx: int, ty: int) {
      FloorDiv(x - r, tileSize) <= tx <= FloorDiv(x + r, tileSize) && FloorDiv(y - r, tileSize) <= ty <= FloorDiv(y + r, tileSize)
    }

    /**
     * What `checkTileCollision` decides: a centre outside `[0,width) x
     * [0,height)` always collides; otherwise an empty grid never does, and
     * a non-empty one does when a solid cell lies under the bounding box.
     * The circle's exact shape plays no part.
     */
    ghost predicate TileAreaBlocked(x: int, y: int, r: int) {
      if x < 0 || y < 0 || x >= width || y >= height then true
      else if |tileMap| == 0 then false
      else exists tx, ty :: InBox(x, y, r, tx, ty) && SolidCell(tx, ty)
    }

    /** `checkTileCollision` (radius default 10): nested scan with early return. */
    method CheckTileCollision(x: int, y: int, radius: Option<int>) returns (collides: bool)
      ensures collides == TileAreaBlocked(x, y, radius.GetOr(DEFAULT_CHECK_RADIUS))
    {
      var r := radius.GetOr(DEFAULT_CHECK_RADIUS);
      if x < 0 || y < 0 || x >= width || y >= height {
        return true;
      }
      if |tileMap| == 0 {
        return false;
      }
      var leftTile, rightTile := FloorDiv(x - r, tileSize), FloorDiv(x + r, tileSize);
      var topTile, bottomTile := FloorDiv(y - r, tileSize), FloorDiv(y + r, tileSize);
      var tileY := topTile;
      while tileY <= bottomTile
        invariant topTile <= tileY
        invariant forall tx, ty :: InBox(x, y, r, tx, ty) && ty < tileY ==> !SolidCell(tx, ty)
      {
        var tileX := leftTile;
        while tileX <= rightTile
          invariant leftTile <= tileX
          invariant forall tx :: leftTile <= tx < tileX ==> !SolidCell(tx, tileY)
        {
          if 0 <= tileY < tilesY && 0 <= tileX < tilesX {
            var tileData := TypeOf(tileTypes, CellAt(tileMap, tileX, tileY));
            if tileData.Some? && Solid(tileData.value) {
              assert InBox(x, y, r, tileX, tileY) && SolidCell(tileX, tileY);
              return true;
            }
          }
          tileX := tileX + 1;
        }
        tileY := tileY + 1;
      }
      return false;
    }

    /** Everything the server's move check rejects. */
    ghost predicate Blocks(x: int, y: int, r: int) {
      TileAreaBlocked(x, y, r) || ObstaclesBlock(obstacles, x, y, r)
    }

    /** `checkCollision` (radius default 10): tiles first, then obstacles. */
    method CheckCollision(x: int, y: int, radius: Option<int>) returns (collides: bool)
      ensures collides == Blocks(x, y, radius.GetOr(DEFAULT_CHECK_RADIUS))
    {
      collides := CheckTileCollision(x, y, radius);
      if collides {
        return;
      }
      collides := CheckObstacleCollision(x, y, radius);
    }

    /** `getTileTypeAt`: the name of the cell under `(x, y)`; `"grass"` outside the grid counts, nothing for a missing row or column. */
    function GetTileTypeAt(x: int, y: int): (t: Option<string>)
      ensures !(0 <= x < tilesX * tileSize && 0 <= y < tilesY * tileSize) ==> t == Some("grass")
      ensures Valid() && 0 <= x < width && 0 <= y < height ==> t == CellAt(tileMap, FloorDiv(x, tileSize), FloorDiv(y, tileSize))
    {
      FloorDivInRange(x, tileSize, tilesX);
      FloorDivInRange(y, tileSize, tilesY);
      var tx, ty := FloorDiv(x, tileSize), FloorDiv(y, tileSize);
      if 0 <= tx < tilesX && 0 <= ty < tilesY then CellAt(tileMap, tx, ty) else Some("grass")
    }

    /**
     * `isWalkable`: only a known type whose `walkable` is literally `false`
     * stops it. Off the grid that is the grass type; with the default types,
     * exactly stone and water.
     */
    function IsWalkable(x: int, y: int): (r: bool)
      ensures !(0 <= x < tilesX * tileSize && 0 <= y < tilesY * tileSize) ==>
        (r <==> !("grass" in tileTypes && tileTypes["grass"].walkable == Some(false)))
      ensures tileTypes == DEFAULT_TILE_TYPES ==>
        (r <==> GetTileTypeAt(x, y) != Some("stone") && GetTileTypeAt(x, y) != Some("water"))
    {
      var t := TypeOf(tileTypes, GetTileTypeAt(x, y));
      !(t.Some? && t.value.walkable == Some(false))
    }
  }

  // ---------------------------------------------------------------------
  // Properties of the map operations

  /** Clamping lands inside non-empty boundaries. */
  lemma ClampIsValid(m: GameMap, x: int, y: int)
    requires m.boundaries.minX <= m.boundaries.maxX && m.boundaries.minY <= m.boundaries.maxY
    ensures var p := m.ClampPosition(x, y); m.IsValidPosition(p.x, p.y)
  {
  }

  /** Clamping leaves a valid position where it is, and is therefore idempotent. */
  lemma ClampFixesValid(m: GameMap, x: int, y: int)
    ensures m.IsValidPosition(x, y) ==> m.ClampPosition(x, y) == Point(x, y)
    ensures m.boundaries.minX <= m.boundaries.maxX && m.boundaries.minY <= m.boundaries.maxY ==>
      var p := m.ClampPosition(x, y); m.ClampPosition(p.x, p.y) == p
  {
  }

  /** No valid position is closer to `(x, y)` on either axis than the clamped one. */
  lemma ClampIsNearest(m: GameMap, x: int, y: int, q: Point)
    requires m.IsValidPosition(q.x, q.y)
    ensures var p := m.ClampPosition(x, y); Abs(x - p.x) <= Abs(x - q.x) && Abs(y - p.y) <= Abs(y - q.y)
  {
  }

  /**
   * A point inside the map whose cell is marked `walkable: false` is blocked
   * for every non-negative radius: its own cell is always under the box.
   */
  lemma NotWalkableBlocks(m: GameMap, x: int, y: int, r: int)
    requires m.Valid()
    requires 0 <= x < m.width && 0 <= y < m.height && |m.tileMap| > 0 && r >= 0
    requires !m.IsWalkable(x, y)
    ensures m.TileAreaBlocked(x, y, r)
  {
    var tx, ty := FloorDiv(x, m.tileSize), FloorDiv(y, m.tileSize);
    CentreCellOnGrid(m, x, y);
    assert m.SolidCell(tx, ty);
    CentreCellInBox(m, x, y, r);
  }

  /** The cell under a point inside the map is a cell of the grid. */
  lemma CentreCellOnGrid(m: GameMap, x: int, y: int)
    requires m.Valid()
    requires 0 <= x < m.width && 0 <= y < m.height
    ensures 0 <= FloorDiv(x, m.tileSize) < m.tilesX && 0 <= FloorDiv(y, m.tileSize) < m.tilesY
  {
    FloorDivBelow(x, m.tileSize, m.tilesX);
    FloorDivBelow(y, m.tileSize, m.tilesY);
  }

  /** The cell under the centre lies under the bounding box of any non-negative radius. */
  lemma CentreCellInBox(m: GameMap, x: int, y: int, r: int)
    requires r >= 0
    ensures m.InBox(x, y, r, FloorDiv(x, m.tileSize), FloorDiv(y, m.tileSize))
  {
    FloorDivMonotone(x - r, x, m.tileSize);
    FloorDivMonotone(x, x + r, m.tileSize);
    FloorDivMonotone(y - r, y, m.tileSize);
    FloorDivMonotone(y, y + r, m.tileSize);
  }

  /** The two readings of `walkable` differ: a type without the entry is walkable yet solid to the collision check. */
  lemma MissingWalkableIsSolidButWalkable(m: GameMap, x: int, y: int)
    requires 0 <= FloorDiv(x, m.tileSize) < m.tilesX && 0 <= FloorDiv(y, m.tileSize) < m.tilesY
    requires var t := TypeOf(m.tileTypes, m.GetTileTypeAt(x, y)); t.Some? && t.value == TileType(None, false)
    ensures m.IsWalkable(x, y)
    ensures m.SolidCell(FloorDiv(x, m.tileSize), FloorDiv(y, m.tileSize))
  {
  }

  /**
   * Consecutive `getPlayerSpawnPoint` calls: `picks` are the chosen indices
   * and the used set moves from `before` to `after`.
   */
  ghost predicate PickRun(n: nat, before: set<int>, picks: seq<int>, after: set<int>)
    decreases |picks|
  {
    if |picks| == 0 then after == before
    else
      var mid := AfterReset(before, n) + {picks[0]};
      PickStep(n, before, picks[0], mid) && PickRun(n, mid, picks[1..], after)
  }

  /** A run of calls followed by one more call is a run one pick longer. */
  lemma {:induction false} PickRunExtend(n: nat, before: set<int>, picks: seq<int>, mid: set<int>, k: int, after: set<int>)
    requires PickRun(n, before, picks, mid) && PickStep(n, mid, k, after)
    ensures PickRun(n, before, picks + [k], after)
    decreases |picks|
  {
    if |picks| == 0 {
      assert (picks + [k])[1..] == [];
    } else {
      PickRunExtend(n, AfterReset(before, n) + {picks[0]}, picks[1..], mid, k, after);
      assert (picks + [k])[1..] == picks[1..] + [k];
    }
  }

  /**
   * Until the pool is exhausted no reset happens: the picks are distinct,
   * avoid the indices already used, and are added to them.
   */
  lemma {:induction false} PickRunDistinct(n: nat, before: set<int>, picks: seq<int>, after: set<int>)
    requires PickRun(n, before, picks, after)
    requires forall i :: i in before ==> 0 <= i < n
    requires |before| + |picks| <= n
    ensures forall a, b :: 0 <= a < b < |picks| ==> picks[a] != picks[b]
    ensures forall a :: 0 <= a < |picks| ==> picks[a] !in before
    ensures after == before + set a | 0 <= a < |picks| :: picks[a]
    decreases |picks|
  {
    if |picks| > 0 {
      var mid := before + {picks[0]};
      assert AfterReset(before, n) == before;
      PickRunDistinct(n, mid, picks[1..], after);
      forall a | 0 <= a < |picks| ensures picks[a] !in before {
        if a > 0 {
          assert picks[a] == picks[1..][a - 1];
        }
      }
      forall a, b | 0 <= a < b < |picks| ensures picks[a] != picks[b] {
        assert picks[b] == picks[1..][b - 1];
        if a > 0 {
          assert picks[a] == picks[1..][a - 1];
        }
      }
      PicksSplit(picks);
    }
  }

  /** The indices of a non-empty run are its first one and those of the rest. */
  lemma PicksSplit(picks: seq<int>)
    requires |picks| > 0
    ensures (set a | 0 <= a < |picks| :: picks[a]) == {picks[0]} + set a | 0 <= a < |picks| - 1 :: picks[1..][a]
  {
    var tail := set a | 0 <= a < |picks| - 1 :: picks[1..][a];
    var all := set a | 0 <= a < |picks| :: picks[a];
    forall v | v in all ensures v in {picks[0]} + tail {
      var a :| 0 <= a < |picks| && v == picks[a];
      if a > 0 {
        assert v == picks[1..][a - 1];
      }
    }
    forall v | v in tail ensures v in all {
      var a :| 0 <= a < |picks| - 1 && v == picks[1..][a];
      assert v == picks[a + 1];
    }
  }

  /** Starting fresh, `n` calls hand out every spawn point of an `n`-point pool exactly once. */
  lemma FreshRoundUsesEveryPoint(n: nat, picks: seq<int>, after: set<int>)
    requires PickRun(n, {}, picks, after) && |picks| == n
    ensures forall a, b :: 0 <= a < b < |picks| ==> picks[a] != picks[b]
    ensures forall k :: 0 <= k < n ==> k in picks
  {
    PickRunDistinct(n, {}, picks, after);
    var all := set a | 0 <= a < |picks| :: picks[a];
    assert all <= Indices(n) by {
      PickStepsInRange(n, {}, picks, after);
    }
    DistinctCount(picks);
    IndicesCount(n);
    SubsetOfSameSize(all, Indices(n));
    forall k | 0 <= k < n ensures k in picks {
      assert k in Indices(n);
      assert k in all;
    }
  }

  lemma {:induction false} PickStepsInRange(n: nat, before: set<int>, picks: seq<int>, after: set<int>)
    requires PickRun(n, before, picks, after)
    ensures forall a :: 0 <= a < |picks| ==> 0 <= picks[a] < n
    decreases |picks|
  {
    if |picks| > 0 {
      PickStepsInRange(n, AfterReset(before, n) + {picks[0]}, picks[1..], after);
      forall a | 0 < a < |picks| ensures 0 <= picks[a] < n {
        assert picks[a] == picks[1..][a - 1];
      }
    }
  }

  /** A sequence without repeats has as many distinct values as entries. */
  lemma {:induction false} DistinctCount(s: seq<int>)
    requires forall a, b :: 0 <= a < b < |s| ==> s[a] != s[b]
    ensures |set a | 0 <= a < |s| :: s[a]| == |s|
  {
    if |s| > 0 {
      var init := s[..|s| - 1];
      DistinctCount(init);
      var all := set a | 0 <= a < |s| :: s[a];
      var prev := set a | 0 <= a < |init| :: init[a];
      assert all == prev + {s[|s| - 1]};
      assert s[|s| - 1] !in prev;
    }
  }

  lemma SubsetOfSameSize(a: set<int>, b: set<int>)
    requires a <= b && |a| == |b|
    ensures a == b
  {
    assert |b - a| == 0;
    assert b - a == {};
    assert forall x :: x in b ==> x in a;
  }
}
