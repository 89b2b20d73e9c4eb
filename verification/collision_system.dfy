/**
 * The collision system shared by client and server: single-shape tests
 * (boundary, one tile, feet, obstacle box), the combined map check that
 * scans the tile cells under the circle's bounding box, and the diagnostic
 * variant that lists every offending tile and obstacle.
 *
 * `Math.sqrt(dx*dx + dy*dy) < radius` is modelled as
 * `radius > 0 && dx*dx + dy*dy < radius*radius`: a square root is never
 * negative, so it is below a non-positive radius for no input.
 */
module CollisionSystem {
  import opened Shapes

  const DEFAULT_PLAYER_RADIUS := 10
  const DEFAULT_FEET_OFFSET := 10
  const DEFAULT_FEET_RADIUS := 6
  const DEFAULT_TILE_SIZE: Pos := 32

  /** The constructor's `config` object; every entry may be missing. */
  datatype Config = Config(
    playerRadius: Option<int>,
    feetOffset: Option<int>,
    feetRadius: Option<int>,
    useFeetCollision: Option<bool>)

  /** A constructed collision system; its fields are never written afterwards. */
  datatype System = System(playerRadius: int, feetOffset: int, feetRadius: int, useFeetCollision: bool)

  /** `new CollisionSystem(config)`: each entry falls back to its default when missing or zero. */
  function NewSystem(config: Config): (s: System)
    ensures s.playerRadius != 0 && s.feetOffset != 0 && s.feetRadius != 0
    ensures config.playerRadius.None? ==> s.playerRadius == DEFAULT_PLAYER_RADIUS
    ensures config.feetOffset.None? ==> s.feetOffset == DEFAULT_FEET_OFFSET
    ensures config.feetRadius.None? ==> s.feetRadius == DEFAULT_FEET_RADIUS
    ensures config.playerRadius.Some? && config.playerRadius.value != 0 ==> s.playerRadius == config.playerRadius.value
    ensures config.feetOffset.Some? && config.feetOffset.value != 0 ==> s.feetOffset == config.feetOffset.value
    ensures config.feetRadius.Some? && config.feetRadius.value != 0 ==> s.feetRadius == config.feetRadius.value
    ensures s.useFeetCollision <==> config.useFeetCollision == Some(true)
  {
    System(
      OrInt(config.playerRadius, DEFAULT_PLAYER_RADIUS),
      OrInt(config.feetOffset, DEFAULT_FEET_OFFSET),
      OrInt(config.feetRadius, DEFAULT_FEET_RADIUS),
      config.useFeetCollision == Some(true))
  }

  /** The per-call `options`; a missing entry takes the system's setting. */
  datatype Options = Options(useFeetCollision: Option<bool>, radius: Option<int>)

  datatype Circle = Circle(center: Point, radius: int)

  /** The map record the checks read; `tileMap`, `tileTypes` and `tileSize` may be missing. */
  datatype MapData = MapData(
    width: int,
    height: int,
    tileMap: Option<Grid>,
    tileTypes: Option<TileTypes>,
    tileSize: Option<Pos>,
    obstacles: seq<Rect>)

  /** The `radius` option, defaulting to the player radius. */
  function NominalRadius(sys: System, opts: Options): int {
    opts.radius.GetOr(sys.playerRadius)
  }

  predicate FeetMode(sys: System, opts: Options) {
    opts.useFeetCollision.GetOr(sys.useFeetCollision)
  }

  /** The circle the boundary and tile tests use (`collisionX`, `collisionY`, `collisionRadius`). */
  function Probe(sys: System, x: int, y: int, opts: Options): Circle {
    if FeetMode(sys, opts) then Circle(Point(x, y + sys.feetOffset), sys.feetRadius)
    else Circle(Point(x, y), NominalRadius(sys, opts))
  }

  // ---------------------------------------------------------------------
  // Single-shape tests

  /** `checkBoundaryCollision`: clear exactly when the circle's bounding box lies inside `[0,w) x [0,h)`. */
  function CheckBoundaryCollision(x: int, y: int, mapWidth: int, mapHeight: int, radius: int): (b: bool)
    ensures !b <==> 0 <= x - radius && x + radius < mapWidth && 0 <= y - radius && y + radius < mapHeight
  {
    x < radius || y < radius || x >= mapWidth - radius || y >= mapHeight - radius
  }

  /** The point of tile `(tx, ty)` nearest to `c`: each coordinate clamped to the tile's extent. */
  function ClosestPointOnTile(c: Point, tx: int, ty: int, s: Pos): (q: Point)
    ensures tx * s <= q.x <= (tx + 1) * s && ty * s <= q.y <= (ty + 1) * s
    ensures tx * s <= c.x <= (tx + 1) * s && ty * s <= c.y <= (ty + 1) * s ==> q == c
  {
    MulMonotone(tx, tx + 1, s);
    MulMonotone(ty, ty + 1, s);
    Point(Clamp(tx * s, (tx + 1) * s, c.x), Clamp(ty * s, (ty + 1) * s, c.y))
  }

  /**
   * `checkTileCollision`: the tile's nearest point lies strictly inside the
   * circle. A hit needs a positive radius and the centre within `radius` of
   * the tile on each axis.
   */
  function CheckTileCollision(x: int, y: int, tileX: int, tileY: int, tileSize: Pos, radius: int): (b: bool)
    ensures b ==> radius > 0
    ensures b ==> (tileX * tileSize - radius < x < (tileX + 1) * tileSize + radius &&
                   tileY * tileSize - radius < y < (tileY + 1) * tileSize + radius)
  {
    var q := ClosestPointOnTile(Point(x, y), tileX, tileY, tileSize);
    if radius > 0 && SqDist(Point(x, y), q) < radius * radius then
      NearOnEachAxis(Point(x, y), q, radius);
      true
    else
      false
  }

  /** `checkFeetCollision`: the tile test for the feet circle, so a hit needs the tile within the feet radius of the feet point. */
  function CheckFeetCollision(sys: System, x: int, y: int, tileX: int, tileY: int, tileSize: Pos): (b: bool)
    ensures b ==> sys.feetRadius > 0
    ensures b ==> (tileX * tileSize - sys.feetRadius < x < (tileX + 1) * tileSize + sys.feetRadius &&
                   tileY * tileSize - sys.feetRadius < y + sys.feetOffset < (tileY + 1) * tileSize + sys.feetRadius)
  {
    CheckTileCollision(x, y + sys.feetOffset, tileX, tileY, tileSize, sys.feetRadius)
  }

  /** On one axis, clamping to `[lo, hi]` moves `v` no farther than any other point of `[lo, hi]`. */
  lemma ClampedIsNearestOnInterval(lo: int, hi: int, v: int, w: int)
    requires lo <= w <= hi
    ensures (v - Clamp(lo, hi, v)) * (v - Clamp(lo, hi, v)) <= (v - w) * (v - w)
  {
    var c := Clamp(lo, hi, v);
    if v < lo {
      SquareMonotone(c - v, w - v);
      assert (v - c) * (v - c) == (c - v) * (c - v);
      assert (v - w) * (v - w) == (w - v) * (w - v);
    } else if v > hi {
      SquareMonotone(v - c, v - w);
    } else {
      assert c == v;
    }
  }

  lemma ClosestPointIsNearest(c: Point, tx: int, ty: int, s: Pos, q: Point)
    requires tx * s <= q.x <= (tx + 1) * s && ty * s <= q.y <= (ty + 1) * s
    ensures SqDist(c, ClosestPointOnTile(c, tx, ty, s)) <= SqDist(c, q)
  {
    ClampedIsNearestOnInterval(tx * s, (tx + 1) * s, c.x, q.x);
    ClampedIsNearestOnInterval(ty * s, (ty + 1) * s, c.y, q.y);
  }

  /**
   * The closest-point test is exact circle-versus-rectangle overlap: it
   * holds iff some point of the closed tile lies strictly inside the circle.
   */
  lemma TileCollisionIsExactOverlap(x: int, y: int, tx: int, ty: int, s: Pos, r: int)
    ensures CheckTileCollision(x, y, tx, ty, s, r)
        <==> CircleMeetsRect(Point(x, y), r, Point(tx * s, ty * s), Point((tx + 1) * s, (ty + 1) * s))
  {
    var c := Point(x, y);
    assert tx * s <= (tx + 1) * s && ty * s <= (ty + 1) * s;
    var k := ClosestPointOnTile(c, tx, ty, s);
    if CheckTileCollision(x, y, tx, ty, s, r) {
      assert tx * s <= k.x <= (tx + 1) * s && ty * s <= k.y <= (ty + 1) * s && SqDist(c, k) < r * r;
    }
    if CircleMeetsRect(c, r, Point(tx * s, ty * s), Point((tx + 1) * s, (ty + 1) * s)) {
      var q: Point :| tx * s <= q.x <= (tx + 1) * s && ty * s <= q.y <= (ty + 1) * s && SqDist(c, q) < r * r;
      ClosestPointIsNearest(c, tx, ty, s, q);
    }
  }

  /** A circle of positive radius whose centre lies on the tile always collides with it. */
  lemma CenterOnTileCollides(x: int, y: int, tx: int, ty: int, s: Pos, r: int)
    requires tx * s <= x <= (tx + 1) * s && ty * s <= y <= (ty + 1) * s
    requires r > 0
    ensures CheckTileCollision(x, y, tx, ty, s, r)
  {
  }

  /** A circle that exactly touches the tile's right edge is not blocked ... */
  lemma TouchingTileDoesNotCollide(y: int, tx: int, ty: int, s: Pos, r: int)
    requires ty * s <= y <= (ty + 1) * s
    ensures !CheckTileCollision((tx + 1) * s + r, y, tx, ty, s, r)
  {
  }

  /** ... while one unit closer it is. */
  lemma OneUnitCloserCollides(y: int, tx: int, ty: int, s: Pos, r: int)
    requires ty * s <= y <= (ty + 1) * s
    requires r > 0
    ensures CheckTileCollision((tx + 1) * s + r - 1, y, tx, ty, s, r)
  {
    var x := (tx + 1) * s + r - 1;
    var k := ClosestPointOnTile(Point(x, y), tx, ty, s);
    assert tx * s <= (tx + 1) * s <= x;
    assert k == Point((tx + 1) * s, y);
    SquareMonotone(r - 1, r);
    assert (r - 1) * (r - 1) < r * r;
  }

  /** Feet collision is exact overlap of the feet circle `(x, y + feetOffset)`, radius `feetRadius`, with the tile. */
  lemma FeetCollisionIsExactOverlapAtFeet(sys: System, x: int, y: int, tx: int, ty: int, s: Pos)
    ensures CheckFeetCollision(sys, x, y, tx, ty, s)
        <==> CircleMeetsRect(Point(x, y + sys.feetOffset), sys.feetRadius,
                             Point(tx * s, ty * s), Point((tx + 1) * s, (ty + 1) * s))
  {
    TileCollisionIsExactOverlap(x, y + sys.feetOffset, tx, ty, s, sys.feetRadius);
  }

  /** A point strictly inside a circle of radius `r` is less than `r` away on each axis. */
  lemma NearOnEachAxis(c: Point, q: Point, r: int)
    requires r > 0 && SqDist(c, q) < r * r
    ensures -r < c.x - q.x < r && -r < c.y - q.y < r
  {
    var a, b := c.x - q.x, c.y - q.y;
    assert SqDist(c, q) == a * a + b * b;
    SquareNonNegative(a);
    SquareNonNegative(b);
    SquareBelowMeansWithin(a, r);
    SquareBelowMeansWithin(b, r);
  }

  /** The obstacle box test is looser than exact overlap: whatever the exact test would block, it blocks. */
  lemma ObstacleTestIsLooser(c: Point, r: int, o: Rect)
    requires CircleMeetsRect(c, r, Point(o.x, o.y), Point(o.x + o.width, o.y + o.height))
    ensures BoxOverlaps(c.x, c.y, r, o)
  {
    var q: Point :| o.x <= q.x <= o.x + o.width && o.y <= q.y <= o.y + o.height && SqDist(c, q) < r * r;
    NearOnEachAxis(c, q, r);
  }

  /** ... and strictly looser: a circle near a corner overlaps the box but not the rectangle. */
  lemma ObstacleTestIsStrictlyLooser()
    ensures BoxOverlaps(0, 0, 10, Rect(8, 8, 10, 10))
    ensures !CircleMeetsRect(Point(0, 0), 10, Point(8, 8), Point(18, 18))
  {
    forall q: Point | 8 <= q.x <= 18 && 8 <= q.y <= 18
      ensures SqDist(Point(0, 0), q) >= 100
    {
      SquareMonotone(8, q.x);
      SquareMonotone(8, q.y);
    }
  }

  /** Boxes that only share an edge do not collide. */
  lemma TouchingObstacleDoesNotCollide(x: int, y: int, r: int, o: Rect)
    requires x + r == o.x || x - r == o.x + o.width || y + r == o.y || y - r == o.y + o.height
    ensures !BoxOverlaps(x, y, r, o)
  {
  }

  // ---------------------------------------------------------------------
  // The combined check

  function TileSizeOf(d: MapData): Pos { d.tileSize.GetOr(DEFAULT_TILE_SIZE) }

  function TilesX(d: MapData): int { CeilDiv(d.width, TileSizeOf(d)) }

  function TilesY(d: MapData): int { CeilDiv(d.height, TileSizeOf(d)) }

  /** `tileMap && tileTypes`: both present (an empty array or object is still truthy). */
  predicate HasTiles(d: MapData) { d.tileMap.Some? && d.tileTypes.Some? }

  /** Cell `(tx, ty)` is in the grid, has a known solid type, and the exact test says `c` overlaps it. */
  predicate CellBlocks(d: MapData, c: Circle, tx: int, ty: int) {
    && HasTiles(d)
    && 0 <= ty < TilesY(d) && 0 <= tx < TilesX(d)
    && var t := TypeOf(d.tileTypes.value, CellAt(d.tileMap.value, tx, ty));
    && t.Some? && Solid(t.value)
    && CheckTileCollision(c.center.x, c.center.y, tx, ty, TileSizeOf(d), c.radius)
  }

  function LeftTile(d: MapData, c: Circle): int { FloorDiv(c.center.x - c.radius, TileSizeOf(d)) }
  function RightTile(d: MapData, c: Circle): int { FloorDiv(c.center.x + c.radius, TileSizeOf(d)) }
  function TopTile(d: MapData, c: Circle): int { FloorDiv(c.center.y - c.radius, TileSizeOf(d)) }
  function BottomTile(d: MapData, c: Circle): int { FloorDiv(c.center.y + c.radius, TileSizeOf(d)) }

  /** The cells under the circle's bounding box (floor-divided corners, inclusive). */
  predicate InScan(d: MapData, c: Circle, tx: int, ty: int) {
    LeftTile(d, c) <= tx <= RightTile(d, c) && TopTile(d, c) <= ty <= BottomTile(d, c)
  }

  ghost predicate TilesBlock(d: MapData, c: Circle) {
    exists tx, ty :: InScan(d, c, tx, ty) && CellBlocks(d, c, tx, ty)
  }

  /**
   * What `checkMapCollision` decides. The boundary and tile tests use the
   * probe circle (the feet circle in feet mode); the obstacle test always
   * uses the nominal centre and the `radius` option.
   */
  ghost predicate MapCollides(sys: System, x: int, y: int, mapData: Option<MapData>, opts: Options) {
    match mapData
    case None => false
    case Some(d) =>
      var c := Probe(sys, x, y, opts);
      || CheckBoundaryCollision(c.center.x, c.center.y, d.width, d.height, c.radius)
      || TilesBlock(d, c)
      || ObstaclesBlock(d.obstacles, x, y, NominalRadius(sys, opts))
  }

  /** The boundary test dominates: when it fires the map check blocks, whatever the tiles and obstacles. */
  lemma BoundaryDominates(sys: System, x: int, y: int, d: MapData, opts: Options)
    requires var c := Probe(sys, x, y, opts); CheckBoundaryCollision(c.center.x, c.center.y, d.width, d.height, c.radius)
    ensures MapCollides(sys, x, y, Some(d), opts)
  {
  }

  /**
   * The bounding-box scan loses nothing: every cell the exact test would
   * block lies in the scanned range. So scanning the box is the same as
   * checking every cell of the grid.
   */
  lemma ScanIsExhaustive(d: MapData, c: Circle, tx: int, ty: int)
    requires CellBlocks(d, c, tx, ty)
    ensures InScan(d, c, tx, ty)
  {
    var s := TileSizeOf(d);
    var x, y, r := c.center.x, c.center.y, c.radius;
    TileCollisionIsExactOverlap(x, y, tx, ty, s, r);
    var q: Point :| tx * s <= q.x <= (tx + 1) * s && ty * s <= q.y <= (ty + 1) * s && SqDist(Point(x, y), q) < r * r;
    NearOnEachAxis(Point(x, y), q, r);
    CellIndexWithin(x - r, x + r, tx, s, q.x);
    CellIndexWithin(y - r, y + r, ty, s, q.y);
  }

  /** A cell `[t*s, (t+1)*s]` holding a point strictly inside `(lo, hi)` has an index between the floors of `lo/s` and `hi/s`. */
  lemma CellIndexWithin(lo: int, hi: int, t: int, s: Pos, v: int)
    requires t * s <= v <= (t + 1) * s && lo < v < hi
    ensures FloorDiv(lo, s) <= t <= FloorDiv(hi, s)
  {
    var l, h := FloorDiv(lo, s), FloorDiv(hi, s);
    if t < l {
      MulMonotone(t + 1, l, s);
    }
    if t > h {
      MulMonotone(h + 1, t, s);
    }
  }

  /** `checkMapCollision`: nested scan of the cells under the bounding box, then the obstacles; early return on the first hit. */
  method CheckMapCollision(sys: System, x: int, y: int, mapData: Option<MapData>, opts: Options) returns (collides: bool)
    ensures collides == MapCollides(sys, x, y, mapData, opts)
  {
    if mapData.None? {
      return false;
    }
    var d := mapData.value;
    var c := Probe(sys, x, y, opts);
    if CheckBoundaryCollision(c.center.x, c.center.y, d.width, d.height, c.radius) {
      return true;
    }
    if HasTiles(d) {
      var tilesX, tilesY := TilesX(d), TilesY(d);
      var left, right := LeftTile(d, c), RightTile(d, c);
      var top, bottom := TopTile(d, c), BottomTile(d, c);
      var ty := top;
      while ty <= bottom
        invariant top <= ty
        invariant forall tx', ty' :: InScan(d, c, tx', ty') && ty' < ty ==> !CellBlocks(d, c, tx', ty')
      {
        var tx := left;
        while tx <= right
          invariant left <= tx
          invariant forall tx' :: left <= tx' < tx ==> !CellBlocks(d, c, tx', ty)
        {
          if 0 <= ty < tilesY && 0 <= tx < tilesX {
            var tileData := TypeOf(d.tileTypes.value, CellAt(d.tileMap.value, tx, ty));
            if tileData.Some? && Solid(tileData.value) {
              if CheckTileCollision(c.center.x, c.center.y, tx, ty, TileSizeOf(d), c.radius) {
                assert InScan(d, c, tx, ty) && CellBlocks(d, c, tx, ty);
                return true;
              }
            }
          }
          tx := tx + 1;
        }
        ty := ty + 1;
      }
    }
    var r := NominalRadius(sys, opts);
    var i := 0;
    while i < |d.obstacles|
      invariant i <= |d.obstacles|
      invariant forall j :: 0 <= j < i ==> !BoxOverlaps(x, y, r, d.obstacles[j])
    {
      if BoxOverlaps(x, y, r, d.obstacles[i]) {
        return true;
      }
      i := i + 1;
    }
    return false;
  }

  // ---------------------------------------------------------------------
  // The diagnostic variant

  /** One entry of `collidingTiles`: the cell and its type name. */
  datatype TileHit = TileHit(x: int, y: int, kind: string)

  datatype DebugInfo = DebugInfo(
    collisionPoint: Point,
    radius: int,
    collides: bool,
    boundaryCollision: bool,
    collidingTiles: seq<TileHit>,
    collidingObstacles: seq<int>)

  /** The hit record of cell `(tx, ty)`, if it blocks. */
  function CellHit(d: MapData, c: Circle, tx: int, ty: int): seq<TileHit> {
    if CellBlocks(d, c, tx, ty) then [TileHit(tx, ty, CellAt(d.tileMap.value, tx, ty).value)] else []
  }

  /** Hits of row `ty`, columns `lo` to `hi - 1`, left to right. */
  function RowHits(d: MapData, c: Circle, ty: int, lo: int, hi: int): seq<TileHit>
    decreases hi - lo
  {
    if hi <= lo then [] else RowHits(d, c, ty, lo, hi - 1) + CellHit(d, c, hi - 1, ty)
  }

  /** Hits of rows `lo` to `hi - 1`, top to bottom, over the scanned columns. */
  function RowsHits(d: MapData, c: Circle, lo: int, hi: int): seq<TileHit>
    decreases hi - lo
  {
    if hi <= lo then [] else RowsHits(d, c, lo, hi - 1) + RowHits(d, c, hi - 1, LeftTile(d, c), RightTile(d, c) + 1)
  }

  /** The `collidingTiles` list the diagnostic builds. */
  function TileHits(d: MapData, c: Circle): seq<TileHit> {
    if HasTiles(d) then RowsHits(d, c, TopTile(d, c), BottomTile(d, c) + 1) else []
  }

  /** Indices below `n` of the obstacles the box test hits, in increasing order. */
  function ObstacleHits(obstacles: seq<Rect>, x: int, y: int, r: int, n: nat): seq<int>
    requires n <= |obstacles|
  {
    if n == 0 then []
    else ObstacleHits(obstacles, x, y, r, n - 1) + (if BoxOverlaps(x, y, r, obstacles[n - 1]) then [n - 1] else [])
  }

  predicate RowMajorBefore(a: TileHit, b: TileHit) {
    a.y < b.y || (a.y == b.y && a.x < b.x)
  }

  predicate RowMajorSorted(s: seq<TileHit>) {
    forall i, j :: 0 <= i < j < |s| ==> RowMajorBefore(s[i], s[j])
  }

  predicate IsBlockingHit(d: MapData, c: Circle, h: TileHit) {
    CellBlocks(d, c, h.x, h.y) && h.kind == CellAt(d.tileMap.value, h.x, h.y).value
  }

  lemma {:induction false} RowHitsMembers(d: MapData, c: Circle, ty: int, lo: int, hi: int, h: TileHit)
    ensures h in RowHits(d, c, ty, lo, hi) <==> lo <= h.x < hi && h.y == ty && IsBlockingHit(d, c, h)
    decreases hi - lo
  {
    if hi > lo {
      RowHitsMembers(d, c, ty, lo, hi - 1, h);
    }
  }

  lemma {:induction false} RowsHitsMembers(d: MapData, c: Circle, lo: int, hi: int, h: TileHit)
    ensures h in RowsHits(d, c, lo, hi)
        <==> lo <= h.y < hi && LeftTile(d, c) <= h.x <= RightTile(d, c) && IsBlockingHit(d, c, h)
    decreases hi - lo
  {
    if hi > lo {
      RowsHitsMembers(d, c, lo, hi - 1, h);
      RowHitsMembers(d, c, hi - 1, LeftTile(d, c), RightTile(d, c) + 1, h);
    }
  }

  /** `collidingTiles` holds exactly the scanned cells that block, each with its type name. */
  lemma TileHitsMembers(d: MapData, c: Circle, h: TileHit)
    ensures h in TileHits(d, c) <==> InScan(d, c, h.x, h.y) && IsBlockingHit(d, c, h)
  {
    if HasTiles(d) {
      RowsHitsMembers(d, c, TopTile(d, c), BottomTile(d, c) + 1, h);
    }
  }

  lemma SortedConcat(a: seq<TileHit>, b: seq<TileHit>)
    requires RowMajorSorted(a) && RowMajorSorted(b)
    requires forall i, j :: 0 <= i < |a| && 0 <= j < |b| ==> RowMajorBefore(a[i], b[j])
    ensures RowMajorSorted(a + b)
  {
  }

  lemma {:induction false} RowHitsSorted(d: MapData, c: Circle, ty: int, lo: int, hi: int)
    ensures RowMajorSorted(RowHits(d, c, ty, lo, hi))
    ensures forall h :: h in RowHits(d, c, ty, lo, hi) ==> h.y == ty && lo <= h.x < hi
    decreases hi - lo
  {
    if hi > lo {
      RowHitsSorted(d, c, ty, lo, hi - 1);
      var a := RowHits(d, c, ty, lo, hi - 1);
      var b := CellHit(d, c, hi - 1, ty);
      forall i, j | 0 <= i < |a| && 0 <= j < |b| ensures RowMajorBefore(a[i], b[j]) {
        assert a[i] in a;
      }
      SortedConcat(a, b);
    }
  }

  lemma {:induction false} RowsHitsSorted(d: MapData, c: Circle, lo: int, hi: int)
    ensures RowMajorSorted(RowsHits(d, c, lo, hi))
    ensures forall h :: h in RowsHits(d, c, lo, hi) ==> lo <= h.y < hi
    decreases hi - lo
  {
    if hi > lo {
      RowsHitsSorted(d, c, lo, hi - 1);
      var a := RowsHits(d, c, lo, hi - 1);
      var b := RowHits(d, c, hi - 1, LeftTile(d, c), RightTile(d, c) + 1);
      RowHitsSorted(d, c, hi - 1, LeftTile(d, c), RightTile(d, c) + 1);
      forall i, j | 0 <= i < |a| && 0 <= j < |b| ensures RowMajorBefore(a[i], b[j]) {
        assert a[i] in a && b[j] in b;
      }
      SortedConcat(a, b);
    }
  }

  /** `collidingTiles` is in row-major order (rows top to bottom, columns left to right), without repeats. */
  lemma TileHitsRowMajor(d: MapData, c: Circle)
    ensures RowMajorSorted(TileHits(d, c))
  {
    if HasTiles(d) {
      RowsHitsSorted(d, c, TopTile(d, c), BottomTile(d, c) + 1);
    }
  }

  /** `collidingObstacles` holds exactly the indices of the obstacles the box test hits, in increasing order. */
  lemma {:induction false} ObstacleHitsExact(obstacles: seq<Rect>, x: int, y: int, r: int, n: nat)
    requires n <= |obstacles|
    ensures forall i :: i in ObstacleHits(obstacles, x, y, r, n) <==> 0 <= i < n && BoxOverlaps(x, y, r, obstacles[i])
    ensures forall a, b :: 0 <= a < b < |ObstacleHits(obstacles, x, y, r, n)|
              ==> ObstacleHits(obstacles, x, y, r, n)[a] < ObstacleHits(obstacles, x, y, r, n)[b]
  {
    if n > 0 {
      ObstacleHitsExact(obstacles, x, y, r, n - 1);
      var prev := ObstacleHits(obstacles, x, y, r, n - 1);
      assert forall i :: i in prev ==> i < n - 1;
      forall a | 0 <= a < |prev| ensures prev[a] < n - 1 {
        assert prev[a] in prev;
      }
    }
  }

  /** The lists are non-empty exactly when the corresponding part of the map check blocks. */
  lemma DebugListsMatchCheck(d: MapData, c: Circle, x: int, y: int, r: int)
    ensures |TileHits(d, c)| > 0 <==> TilesBlock(d, c)
    ensures |ObstacleHits(d.obstacles, x, y, r, |d.obstacles|)| > 0 <==> ObstaclesBlock(d.obstacles, x, y, r)
  {
    var hits := TileHits(d, c);
    if |hits| > 0 {
      TileHitsMembers(d, c, hits[0]);
    }
    if TilesBlock(d, c) {
      var tx, ty :| InScan(d, c, tx, ty) && CellBlocks(d, c, tx, ty);
      var h := TileHit(tx, ty, CellAt(d.tileMap.value, tx, ty).value);
      TileHitsMembers(d, c, h);
    }
    ObstacleHitsExact(d.obstacles, x, y, r, |d.obstacles|);
    var os := ObstacleHits(d.obstacles, x, y, r, |d.obstacles|);
    if |os| > 0 {
      assert os[0] in os;
    }
    if ObstaclesBlock(d.obstacles, x, y, r) {
      var i :| 0 <= i < |d.obstacles| && BoxOverlaps(x, y, r, d.obstacles[i]);
      assert i in os;
    }
  }

  /** The tile loop of `getCollisionDebugInfo`: push every blocking cell, row by row. */
  method CollectTileHits(d: MapData, c: Circle) returns (tiles: seq<TileHit>)
    ensures tiles == TileHits(d, c)
  {
    tiles := [];
    if !HasTiles(d) {
      return;
    }
    var tilesX, tilesY := TilesX(d), TilesY(d);
    var left, right := LeftTile(d, c), RightTile(d, c);
    var top, bottom := TopTile(d, c), BottomTile(d, c);
    var ty := top;
    while ty <= bottom
      invariant top <= ty && (ty <= bottom + 1 || ty == top)
      invariant tiles == RowsHits(d, c, top, ty)
    {
      var tx := left;
      while tx <= right
        invariant left <= tx && (tx <= right + 1 || tx == left)
        invariant tiles == RowsHits(d, c, top, ty) + RowHits(d, c, ty, left, tx)
      {
        if 0 <= ty < tilesY && 0 <= tx < tilesX {
          var tileType := CellAt(d.tileMap.value, tx, ty);
          var tileData := TypeOf(d.tileTypes.value, tileType);
          if tileData.Some? && Solid(tileData.value) {
            if CheckTileCollision(c.center.x, c.center.y, tx, ty, TileSizeOf(d), c.radius) {
              tiles := tiles + [TileHit(tx, ty, tileType.value)];
            }
          }
        }
        tx := tx + 1;
      }
      ty := ty + 1;
    }
  }

  /** The obstacle loop of `getCollisionDebugInfo`: push the index of every obstacle the box test hits. */
  method CollectObstacleHits(obstacles: seq<Rect>, x: int, y: int, r: int) returns (hits: seq<int>)
    ensures hits == ObstacleHits(obstacles, x, y, r, |obstacles|)
  {
    hits := [];
    var i := 0;
    while i < |obstacles|
      invariant i <= |obstacles|
      invariant hits == ObstacleHits(obstacles, x, y, r, i)
    {
      if BoxOverlaps(x, y, r, obstacles[i]) {
        hits := hits + [i];
      }
      i := i + 1;
    }
  }

  /**
   * `getCollisionDebugInfo`: like the map check but without early return;
   * it records every offending tile and obstacle, and its `collides` agrees
   * with the map check on the same arguments.
   */
  method GetCollisionDebugInfo(sys: System, x: int, y: int, mapData: Option<MapData>, opts: Options)
    returns (info: DebugInfo)
    ensures mapData.None? ==> info == DebugInfo(Point(x, y), NominalRadius(sys, opts), false, false, [], [])
    ensures mapData.Some? ==>
      var d := mapData.value;
      var c := Probe(sys, x, y, opts);
      && info.collisionPoint == c.center && info.radius == c.radius
      && info.boundaryCollision == CheckBoundaryCollision(c.center.x, c.center.y, d.width, d.height, c.radius)
      && info.collidingTiles == TileHits(d, c)
      && info.collidingObstacles == ObstacleHits(d.obstacles, x, y, NominalRadius(sys, opts), |d.obstacles|)
    ensures info.collides == MapCollides(sys, x, y, mapData, opts)
  {
    var radius := NominalRadius(sys, opts);
    if mapData.None? {
      return DebugInfo(Point(x, y), radius, false, false, [], []);
    }
    var d := mapData.value;
    var c := Probe(sys, x, y, opts);
    var collides := false;
    var boundary := false;
    if CheckBoundaryCollision(c.center.x, c.center.y, d.width, d.height, c.radius) {
      collides := true;
      boundary := true;
    }
    var tiles := CollectTileHits(d, c);
    var obstacles := CollectObstacleHits(d.obstacles, x, y, radius);
    collides := collides || |tiles| > 0 || |obstacles| > 0;
    DebugListsMatchCheck(d, c, x, y, radius);
    info := DebugInfo(c.center, c.radius, collides, boundary, tiles, obstacles);
  }

  // ---------------------------------------------------------------------
  // Worked scenarios

  /** A 100 x 100 map with nothing on it: a circle of radius 5 at (50,50) is clear, and so is one at (92,50). */
  lemma OpenMapScenario(sys: System)
    ensures !MapCollides(sys, 50, 50, Some(MapData(100, 100, None, None, None, [])), Options(Some(false), Some(5)))
    ensures !MapCollides(sys, 92, 50, Some(MapData(100, 100, None, None, None, [])), Options(Some(false), Some(5)))
    ensures MapCollides(sys, 96, 50, Some(MapData(100, 100, None, None, None, [])), Options(Some(false), Some(5)))
  {
  }
}
