/**
 * The server's sword rules. A swing reaches 20 units in the facing
 * direction; an enemy is hit when it lies within 20 units of the sword
 * tip AND inside the arc (strictly ahead of the attacker, less than 10
 * units off the facing line). A hit takes 10 health; an enemy whose health
 * reaches zero is removed and counts as a kill for the attacker.
 */
module Combat {
  import opened Shapes
  import opened Entities

  const SWORD_RANGE := 20
  const SWORD_DAMAGE := 10
  /** `swordRange / 2`, the arc's half-width. */
  const ARC_HALF_WIDTH := 10

  function SwordTip(p: Point, f: Facing): Point {
    match f
    case Up => Point(p.x, p.y - SWORD_RANGE)
    case Down => Point(p.x, p.y + SWORD_RANGE)
    case Left => Point(p.x - SWORD_RANGE, p.y)
    case Right => Point(p.x + SWORD_RANGE, p.y)
  }

  /** Within `swordRange` of the tip (`Math.sqrt(dx*dx + dy*dy) < swordRange`). */
  predicate InReach(p: Point, f: Facing, e: Point) {
    SqDist(SwordTip(p, f), e) < SWORD_RANGE * SWORD_RANGE
  }

  /** The arc test of `checkSwordCollisions`, case by case. */
  predicate InArc(p: Point, f: Facing, e: Point) {
    match f
    case Up => e.y - p.y < 0 && Abs(e.x - p.x) < ARC_HALF_WIDTH
    case Down => e.y - p.y > 0 && Abs(e.x - p.x) < ARC_HALF_WIDTH
    case Left => e.x - p.x < 0 && Abs(e.y - p.y) < ARC_HALF_WIDTH
    case Right => e.x - p.x > 0 && Abs(e.y - p.y) < ARC_HALF_WIDTH
  }

  predicate Hits(p: Point, f: Facing, e: Point) {
    InReach(p, f, e) && InArc(p, f, e)
  }

  /** How far `e` lies ahead of `p` in direction `f`. */
  function Ahead(p: Point, f: Facing, e: Point): int {
    match f
    case Up => p.y - e.y
    case Down => e.y - p.y
    case Left => p.x - e.x
    case Right => e.x - p.x
  }

  /** How far `e` lies off the line through `p` in direction `f`. */
  function Aside(p: Point, f: Facing, e: Point): int {
    match f
    case Up | Down => e.x - p.x
    case Left | Right => e.y - p.y
  }

  /** Reach, restated in the attacker's frame: the tip sits 20 units ahead. */
  lemma ReachInFacingFrame(p: Point, f: Facing, e: Point)
    ensures InReach(p, f, e)
        <==> (Ahead(p, f, e) - SWORD_RANGE) * (Ahead(p, f, e) - SWORD_RANGE) + Aside(p, f, e) * Aside(p, f, e) < 400
  {
    var a, s := Ahead(p, f, e), Aside(p, f, e);
    var t := SwordTip(p, f);
    match f
    case Up =>
      assert (t.x - e.x) * (t.x - e.x) == s * s;
      assert (t.y - e.y) * (t.y - e.y) == (a - SWORD_RANGE) * (a - SWORD_RANGE);
    case Down =>
      assert (t.x - e.x) * (t.x - e.x) == s * s;
      assert (t.y - e.y) * (t.y - e.y) == (a - SWORD_RANGE) * (a - SWORD_RANGE);
    case Left =>
      assert (t.x - e.x) * (t.x - e.x) == (a - SWORD_RANGE) * (a - SWORD_RANGE);
      assert (t.y - e.y) * (t.y - e.y) == s * s;
    case Right =>
      assert (t.x - e.x) * (t.x - e.x) == (a - SWORD_RANGE) * (a - SWORD_RANGE);
      assert (t.y - e.y) * (t.y - e.y) == s * s;
  }

  /**
   * The reach test alone already rules out targets level with or behind
   * the attacker: anything within 20 of a tip 20 units ahead is strictly
   * ahead, and at most 39 units so.
   */
  lemma ReachMeansAhead(p: Point, f: Facing, e: Point)
    requires InReach(p, f, e)
    ensures 0 < Ahead(p, f, e) < 2 * SWORD_RANGE
    ensures -SWORD_RANGE < Aside(p, f, e) < SWORD_RANGE
  {
    ReachInFacingFrame(p, f, e);
    var a, s := Ahead(p, f, e), Aside(p, f, e);
    SquareNonNegative(a - SWORD_RANGE);
    SquareNonNegative(s);
    SquareBelowMeansWithin(a - SWORD_RANGE, SWORD_RANGE);
    SquareBelowMeansWithin(s, SWORD_RANGE);
  }

  /** A hit, in the attacker's frame: less than 10 off the line and within 20 of the tip. */
  lemma HitsInFacingFrame(p: Point, f: Facing, e: Point)
    ensures Hits(p, f, e)
        <==> (&& Abs(Aside(p, f, e)) < ARC_HALF_WIDTH
              && (Ahead(p, f, e) - SWORD_RANGE) * (Ahead(p, f, e) - SWORD_RANGE) + Aside(p, f, e) * Aside(p, f, e) < 400)
  {
    ReachInFacingFrame(p, f, e);
    if InReach(p, f, e) {
      ReachMeansAhead(p, f, e);
    }
  }

  /** The arc is what narrows the hit area: a target 15 off the line next to the tip is in reach but not in the arc, and one 45 ahead is in the arc but out of reach. */
  lemma ArcAndReachBothMatter(p: Point)
    ensures InReach(p, Down, Point(p.x + 15, p.y + 20)) && !Hits(p, Down, Point(p.x + 15, p.y + 20))
    ensures InArc(p, Down, Point(p.x, p.y + 45)) && !Hits(p, Down, Point(p.x, p.y + 45))
  {
  }

  /** An attacker at (100, 100) facing down: hits below within the arc, misses beside and at the arc's edge. */
  lemma SwingScenario()
    ensures Hits(Point(100, 100), Down, Point(100, 115))
    ensures Hits(Point(100, 100), Down, Point(109, 110))
    ensures !Hits(Point(100, 100), Down, Point(110, 110))
    ensures !Hits(Point(100, 100), Down, Point(115, 100))
    ensures !Hits(Point(100, 100), Down, Point(108, 100))
  {
  }

  /** Hitting depends only on where the target is relative to the attacker. */
  lemma HitsIsTranslationInvariant(p: Point, f: Facing, e: Point, dx: int, dy: int)
    ensures Hits(Point(p.x + dx, p.y + dy), f, Point(e.x + dx, e.y + dy)) == Hits(p, f, e)
  {
    var p', e' := Point(p.x + dx, p.y + dy), Point(e.x + dx, e.y + dy);
    assert Ahead(p', f, e') == Ahead(p, f, e) && Aside(p', f, e') == Aside(p, f, e);
    HitsInFacingFrame(p, f, e);
    HitsInFacingFrame(p', f, e');
  }

  // ---------------------------------------------------------------------
  // One swing against the enemy table

  function Position(e: EnemyState): Point {
    Point(e.x, e.y)
  }

  function Damaged(e: EnemyState): EnemyState {
    e.(health := AfterDamage(e.health, SWORD_DAMAGE))
  }

  /** The enemies a swing from `p` facing `f` hits. */
  function Struck(es: map<string, EnemyState>, p: Point, f: Facing): set<string> {
    set k | k in es && Hits(p, f, Position(es[k]))
  }

  /** The struck enemies the blow kills. */
  function Killed(es: map<string, EnemyState>, p: Point, f: Facing): set<string> {
    set k | k in Struck(es, p, f) && IsDead(Damaged(es[k]))
  }

  /** The enemy table after the swing: struck enemies damaged, killed ones removed, the rest untouched. */
  function AfterSwing(es: map<string, EnemyState>, p: Point, f: Facing): map<string, EnemyState> {
    map k | k in es && k !in Killed(es, p, f) :: if k in Struck(es, p, f) then Damaged(es[k]) else es[k]
  }

  /** Exactly the killed enemies disappear; every kill was a hit; survivors keep their place. */
  lemma AfterSwingKeys(es: map<string, EnemyState>, p: Point, f: Facing)
    ensures Killed(es, p, f) <= Struck(es, p, f) <= es.Keys
    ensures AfterSwing(es, p, f).Keys == es.Keys - Killed(es, p, f)
    ensures |Killed(es, p, f)| <= |Struck(es, p, f)|
  {
    SubsetCount(Killed(es, p, f), Struck(es, p, f));
  }

  /**
   * Survivors: a struck one has lost exactly 10 health and still has some;
   * an unstruck one is unchanged. Positions never change.
   */
  lemma AfterSwingSurvivors(es: map<string, EnemyState>, p: Point, f: Facing, k: string)
    requires k in AfterSwing(es, p, f)
    ensures var e, e' := es[k], AfterSwing(es, p, f)[k];
      && Position(e') == Position(e) && e'.maxHealth == e.maxHealth
      && (k in Struck(es, p, f) ==> e'.health == e.health - SWORD_DAMAGE && e'.health > 0)
      && (k !in Struck(es, p, f) ==> e' == e)
  {
  }

  /** Fresh enemies (health 20) take two swings: the first kills none, the second, from the same spot, kills every one it hit before. */
  lemma FreshEnemiesNeedTwoHits(es: map<string, EnemyState>, p: Point, f: Facing)
    requires forall k :: k in es ==> es[k].health == START_HEALTH
    ensures Killed(es, p, f) == {}
    ensures Killed(AfterSwing(es, p, f), p, f) == Struck(es, p, f)
  {
    var es' := AfterSwing(es, p, f);
    assert Killed(es, p, f) == {};
    forall k | k in Struck(es, p, f) ensures k in Killed(es', p, f) {
      assert Position(es'[k]) == Position(es[k]);
    }
  }
}
