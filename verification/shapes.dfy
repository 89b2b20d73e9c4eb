/**
 * Values shared by the collision system, the map class and the game server:
 * points, obstacle rectangles, tile-type definitions, the tile grid, and the
 * integer helpers that stand for JavaScript's `Math.min`, `Math.max`,
 * `Math.floor`, `Math.ceil` and `||` defaults.
 */
module Shapes {

  datatype Option<+T> = None | Some(value: T) {
    /** The value, or `default` when absent (a destructuring default `= d`). */
    function GetOr(default: T): T {
      if Some? then value else default
    }
  }

  /** A tile size; every use divides by it. */
  type Pos = n: int | n > 0 witness 1

  /** A world position `{ x, y }`. */
  datatype Point = Point(x: int, y: int)

  /** An obstacle rectangle `{ x, y, width, height }`. */
  datatype Rect = Rect(x: int, y: int, width: int, height: int)

  /**
   * A tile-type definition. `walkable` may be missing from a map file, and
   * the code reads it both by truthiness and by `!== false`, so absence is
   * kept apart from `false`; `collision` is the optional override flag.
   */
  datatype TileType = TileType(walkable: Option<bool>, collision: bool)

  /** `tileMap[row][column]`: names of tile types. */
  type Grid = seq<seq<string>>

  type TileTypes = map<string, TileType>

  function Min(a: int, b: int): int { if a <= b then a else b }

  function Max(a: int, b: int): int { if a >= b then a else b }

  function Abs(a: int): int { if a < 0 then -a else a }

  /** `Math.max(lo, Math.min(hi, v))`. */
  function Clamp(lo: int, hi: int, v: int): int { Max(lo, Min(hi, v)) }

  function SqDist(a: Point, b: Point): int {
    (a.x - b.x) * (a.x - b.x) + (a.y - b.y) * (a.y - b.y)
  }

  /** The JavaScript default `v || d` on a number: a missing value or 0 gives `d`. */
  function OrInt(v: Option<int>, d: int): (r: int)
    ensures r == d || v == Some(r)
    ensures d != 0 ==> r != 0
    ensures v.None? || v == Some(0) ==> r == d
    ensures v.Some? && v.value != 0 ==> r == v.value
  {
    if v.Some? && v.value != 0 then v.value else d
  }

  /** The JavaScript default `s || d` on a string: a missing or empty string gives `d`. */
  function OrStr(v: Option<string>, d: string): (r: string)
    ensures r == d || v == Some(r)
    ensures d != "" ==> r != ""
    ensures v.None? || v == Some("") ==> r == d
    ensures v.Some? && v.value != "" ==> r == v.value
  {
    if v.Some? && v.value != "" then v.value else d
  }

  /** `Math.floor(a / s)`: Dafny's integer division by a positive divisor already rounds down. */
  function FloorDiv(a: int, s: Pos): (q: int)
    ensures q * s <= a < q * s + s
  {
    a / s
  }

  /** Squaring keeps the order of non-negative numbers. */
  lemma SquareMonotone(a: int, b: int)
    requires 0 <= a <= b
    ensures a * a <= b * b
  {
    assert a * a <= a * b <= b * b;
  }

  /** A square below `r*r` comes from a number strictly between `-r` and `r`. */
  lemma SquareBelowMeansWithin(a: int, r: int)
    requires r > 0 && a * a < r * r
    ensures -r < a < r
  {
    if a >= r {
      SquareMonotone(r, a);
    } else if a <= -r {
      SquareOfNegation(a);
      SquareMonotone(r, -a);
    }
  }

  lemma SquareOfNegation(a: int)
    ensures (-a) * (-a) == a * a
  {
  }

  lemma SquareNonNegative(a: int)
    ensures a * a >= 0
  {
    if a >= 0 {
      SquareMonotone(0, a);
    } else {
      SquareOfNegation(a);
      SquareMonotone(0, -a);
    }
  }

  lemma MulMonotone(a: int, b: int, s: Pos)
    requires a <= b
    ensures a * s <= b * s
  {
    var k := b - a;
    assert b * s == a * s + k * s;
  }

  /** Flooring division keeps order. */
  lemma FloorDivMonotone(a: int, b: int, s: Pos)
    requires a <= b
    ensures FloorDiv(a, s) <= FloorDiv(b, s)
  {
    var p, q := FloorDiv(a, s), FloorDiv(b, s);
    if p > q {
      MulMonotone(q + 1, p, s);
    }
  }

  /** Below `n` whole cells of size `s` lies a cell index below `n`. */
  lemma FloorDivBelow(a: int, s: Pos, n: int)
    requires a < n * s
    ensures FloorDiv(a, s) < n
  {
    var q := FloorDiv(a, s);
    if q >= n {
      MulMonotone(n, q, s);
    }
  }

  /** The cell index of `a` lies in `[0, n)` exactly when `a` lies in the `n` cells `[0, n*s)`. */
  lemma FloorDivInRange(a: int, s: Pos, n: int)
    ensures 0 <= FloorDiv(a, s) < n <==> 0 <= a < n * s
  {
    var q := FloorDiv(a, s);
    if 0 <= q < n {
      MulMonotone(0, q, s);
      MulMonotone(q + 1, n, s);
    }
    if 0 <= a < n * s {
      if q < 0 {
        MulMonotone(q, -1, s);
      }
      FloorDivBelow(a, s, n);
    }
  }

  /** `Math.ceil(a / s)`: the number of whole cells of size `s` needed to cover `a` units. */
  function CeilDiv(a: int, s: Pos): (q: int)
    ensures q * s - s < a <= q * s
  {
    var q := (a + s - 1) / s;
    assert q * s <= a + s - 1 < q * s + s;
    q
  }

  /** `grid[ty][tx]`, or `None` when that row or column does not exist. */
  function CellAt(grid: Grid, tx: int, ty: int): Option<string> {
    if 0 <= ty < |grid| && 0 <= tx < |grid[ty]| then Some(grid[ty][tx]) else None
  }

  /** `tileTypes[name]`, or `None` for an unknown (or missing) name. */
  function TypeOf(types: TileTypes, name: Option<string>): Option<TileType> {
    if name.Some? && name.value in types then Some(types[name.value]) else None
  }

  /** `!tileData.walkable || tileData.collision`: a missing `walkable` counts as not walkable here. */
  predicate Solid(t: TileType) {
    t.walkable != Some(true) || t.collision
  }

  /**
   * The obstacle test used by both the collision system and the map: the
   * circle's bounding box `[x-r, x+r] x [y-r, y+r]` overlaps the rectangle
   * with positive area (strict comparisons).
   */
  function BoxOverlaps(x: int, y: int, r: int, o: Rect): (b: bool)
    ensures r > 0 && o.width > 0 && o.height > 0 ==>
      (b <==> Min(x + r, o.x + o.width) > Max(x - r, o.x) && Min(y + r, o.y + o.height) > Max(y - r, o.y))
  {
    x + r > o.x && x - r < o.x + o.width && y + r > o.y && y - r < o.y + o.height
  }

  /** Some obstacle's rectangle meets the box of half-width `r` around `(x, y)`. */
  ghost predicate ObstaclesBlock(obstacles: seq<Rect>, x: int, y: int, r: int) {
    exists i :: 0 <= i < |obstacles| && BoxOverlaps(x, y, r, obstacles[i])
  }

  /**
   * Exact overlap of a circle with a closed axis-aligned rectangle: some
   * point of the rectangle lies strictly inside the circle. This is the
   * reference the closest-point tile test is proved against.
   */
  ghost predicate CircleMeetsRect(c: Point, r: int, lo: Point, hi: Point) {
    r > 0 && exists q: Point :: lo.x <= q.x <= hi.x && lo.y <= q.y <= hi.y && SqDist(c, q) < r * r
  }

  /** A subset is no larger than its superset. */
  lemma {:induction false} SubsetCount<T>(a: set<T>, b: set<T>)
    requires a <= b
    ensures |a| <= |b|
    decreases a
  {
    if a != {} {
      var x :| x in a;
      SubsetCount(a - {x}, b - {x});
    }
  }
}
