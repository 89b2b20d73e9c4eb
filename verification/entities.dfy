/**
 * The two kinds of creature the server keeps: players, which move, face a
 * direction, swing a sword and take damage; and enemies, which only take
 * damage. Both are objects the server updates in place.
 */
module Entities {
  import opened Shapes

  datatype Facing = Up | Down | Left | Right

  const START_HEALTH := 20
  /** Smallest coordinate a move may reach on either axis. */
  const MOVE_MIN := 11
  /** A move stays this far inside the canvas's far edge. */
  const MOVE_MARGIN := 21
  /** How long a swing lasts, in milliseconds. */
  const SWING_DURATION := 300

  /** One axis of a move: `Math.max(11, Math.min(extent - 21, v))`. */
  function MoveTarget(v: int, extent: int): int {
    Max(MOVE_MIN, Min(extent - MOVE_MARGIN, v))
  }

  /** A move on a canvas at least 32 wide lands in `[11, extent - 21]`. */
  lemma MoveTargetWithin(v: int, extent: int)
    requires extent >= MOVE_MIN + MOVE_MARGIN
    ensures MOVE_MIN <= MoveTarget(v, extent) <= extent - MOVE_MARGIN
  {
  }

  /** ... and a position already there is kept; on a narrower canvas every move ends at 11. */
  lemma MoveTargetKeepsInside(v: int, extent: int)
    ensures MOVE_MIN <= v <= extent - MOVE_MARGIN ==> MoveTarget(v, extent) == v
    ensures extent < MOVE_MIN + MOVE_MARGIN ==> MoveTarget(v, extent) == MOVE_MIN
  {
  }

  /** The new facing after a move by `(dx, dy)`: horizontal movement wins; no movement keeps the old facing. */
  function FacingAfter(f: Facing, dx: int, dy: int): Facing {
    if dx > 0 then Right
    else if dx < 0 then Left
    else if dy > 0 then Down
    else if dy < 0 then Up
    else f
  }

  /** Facing is decided by the sign of the dominant axis only, never by the amount. */
  lemma FacingFollowsSigns(f: Facing, dx: int, dy: int)
    ensures FacingAfter(f, dx, dy) == Right <==> dx > 0 || (dx == 0 && dy == 0 && f == Right)
    ensures FacingAfter(f, dx, dy) == Left <==> dx < 0 || (dx == 0 && dy == 0 && f == Left)
    ensures FacingAfter(f, dx, dy) == Down <==> (dx == 0 && dy > 0) || (dx == 0 && dy == 0 && f == Down)
    ensures FacingAfter(f, dx, dy) == Up <==> (dx == 0 && dy < 0) || (dx == 0 && dy == 0 && f == Up)
    ensures forall k :: k > 0 ==> FacingAfter(f, k * dx, k * dy) == FacingAfter(f, dx, dy)
  {
    forall k | k > 0 ensures FacingAfter(f, k * dx, k * dy) == FacingAfter(f, dx, dy) {
      SignOfScaled(k, dx);
      SignOfScaled(k, dy);
    }
  }

  lemma SignOfScaled(k: int, d: int)
    requires k > 0
    ensures (k * d > 0 <==> d > 0) && (k * d < 0 <==> d < 0)
  {
    if d > 0 {
      MulMonotone(1, d, k);
    } else if d < 0 {
      MulMonotone(d, -1, k);
    }
  }

  /** `Math.max(0, health - damage)`. */
  function AfterDamage(health: int, damage: int): int {
    Max(0, health - damage)
  }

  /** Damage never leaves a negative health, and kills exactly when it reaches the health a positive health had. */
  lemma AfterDamageProperties(health: int, damage: int)
    ensures AfterDamage(health, damage) >= 0
    ensures damage >= 0 ==> AfterDamage(health, damage) <= Max(0, health)
    ensures health > 0 ==> (AfterDamage(health, damage) <= 0 <==> damage >= health)
  {
  }

  /** Two blows of `d1` and `d2` take off what one blow of `d1 + d2` does. */
  lemma AfterDamageAdds(health: int, d1: int, d2: int)
    requires d1 >= 0 && d2 >= 0
    ensures AfterDamage(AfterDamage(health, d1), d2) == AfterDamage(health, d1 + d2)
  {
  }

  /** A player's fields as a value. */
  datatype PlayerState = PlayerState(
    x: int,
    y: int,
    facing: Facing,
    isSwinging: bool,
    swingStartTime: int,
    swingEndTime: int,
    health: int,
    maxHealth: int,
    lastMoveTime: int)

  /** A player after `move(dx, dy, canvasWidth, canvasHeight)` at time `now`. */
  function Moved(p: PlayerState, dx: int, dy: int, canvasWidth: int, canvasHeight: int, now: int): PlayerState {
    p.(x := MoveTarget(p.x + dx, canvasWidth), y := MoveTarget(p.y + dy, canvasHeight),
       facing := FacingAfter(p.facing, dx, dy), lastMoveTime := now)
  }

  /** The server's expiry rule for a swing: still flagged, with a non-zero end, and more than 500 ms past it. */
  predicate SwingExpired(p: PlayerState, now: int) {
    p.isSwinging && p.swingEndTime != 0 && now > p.swingEndTime + 500
  }

  /** A swing begun at `t` (with `t + 300` non-zero) is swept exactly once `now` passes `t + 800`. */
  lemma SwingExpiresAfter800(p: PlayerState, t: int, now: int)
    requires p.isSwinging && p.swingStartTime == t && p.swingEndTime == t + SWING_DURATION && t + SWING_DURATION != 0
    ensures SwingExpired(p, now) <==> now > t + 800
  {
  }

  /** `clearSwing` as a value. */
  function Cleared(p: PlayerState): (r: PlayerState)
    ensures !r.isSwinging && r.swingStartTime == 0 && r.swingEndTime == 0
    ensures r.(isSwinging := p.isSwinging, swingStartTime := p.swingStartTime, swingEndTime := p.swingEndTime) == p
  {
    p.(isSwinging := false, swingStartTime := 0, swingEndTime := 0)
  }

  /** What the server's broadcast does to one player at time `now`. */
  function SweepOne(p: PlayerState, now: int): (r: PlayerState)
    ensures !SwingExpired(r, now)
    ensures r == p || r == Cleared(p)
  {
    if SwingExpired(p, now) then Cleared(p) else p
  }

  /** Sweeping twice at the same time is sweeping once. */
  lemma SweepIdempotent(p: PlayerState, now: int)
    ensures SweepOne(SweepOne(p, now), now) == SweepOne(p, now)
  {
  }

  class Player {
    const id: string
    const name: string
    var x: int
    var y: int
    var facing: Facing
    var isSwinging: bool
    var swingStartTime: int
    var swingEndTime: int
    var health: int
    var maxHealth: int
    var lastMoveTime: int

    ghost function State(): PlayerState
      reads this
    {
      PlayerState(x, y, facing, isSwinging, swingStartTime, swingEndTime, health, maxHealth, lastMoveTime)
    }

    /** `new Player(id, name, x = 200, y = 200)`: full health, facing down, not swinging. */
    constructor (id: string, name: string, x: Option<int>, y: Option<int>)
      ensures this.id == id && this.name == name
      ensures State() == PlayerState(x.GetOr(200), y.GetOr(200), Down, false, 0, 0, START_HEALTH, START_HEALTH, 0)
    {
      this.id := id;
      this.name := name;
      this.x := x.GetOr(200);
      this.y := y.GetOr(200);
      facing := Down;
      isSwinging := false;
      swingStartTime := 0;
      swingEndTime := 0;
      health := START_HEALTH;
      maxHealth := START_HEALTH;
      lastMoveTime := 0;
    }

    /**
     * `move(dx, dy, canvasWidth, canvasHeight)` at time `now`: the position
     * is clamped into the canvas, the facing follows the movement, and the
     * result says whether position or facing changed.
     */
    method Move(dx: int, dy: int, canvasWidth: int, canvasHeight: int, now: int) returns (changed: bool)
      modifies this
      ensures State() == Moved(old(State()), dx, dy, canvasWidth, canvasHeight, now)
      ensures changed <==> x != old(x) || y != old(y) || facing != old(facing)
    {
      var oldX, oldY, oldFacing := x, y, facing;
      x := MoveTarget(x + dx, canvasWidth);
      y := MoveTarget(y + dy, canvasHeight);
      facing := FacingAfter(facing, dx, dy);
      lastMoveTime := now;
      changed := oldX != x || oldY != y || oldFacing != facing;
    }

    /** `swingSword` at time `now`: a swing lasting 300 ms starts. */
    method SwingSword(now: int)
      modifies this
      ensures State() == old(State()).(isSwinging := true, swingStartTime := now, swingEndTime := now + SWING_DURATION)
    {
      isSwinging := true;
      swingStartTime := now;
      swingEndTime := now + SWING_DURATION;
    }

    /** `takeDamage(damage)`: health drops, never below zero; the result says whether the player is down. */
    method TakeDamage(damage: int) returns (dead: bool)
      modifies this
      ensures State() == old(State()).(health := AfterDamage(old(health), damage))
      ensures dead <==> health <= 0
    {
      health := AfterDamage(health, damage);
      dead := health <= 0;
    }

    method ClearSwing()
      modifies this
      ensures State() == Cleared(old(State()))
    {
      isSwinging := false;
      swingStartTime := 0;
      swingEndTime := 0;
    }
  }

  /** A player that is not moving and stands inside the canvas reports no change. */
  lemma StandingStillIsNoChange(p: PlayerState, w: int, h: int)
    requires MOVE_MIN <= p.x <= w - MOVE_MARGIN && MOVE_MIN <= p.y <= h - MOVE_MARGIN
    ensures MoveTarget(p.x + 0, w) == p.x && MoveTarget(p.y + 0, h) == p.y && FacingAfter(p.facing, 0, 0) == p.facing
  {
  }

  /** An enemy's fields as a value. */
  datatype EnemyState = EnemyState(x: int, y: int, health: int, maxHealth: int)

  predicate IsDead(e: EnemyState) {
    e.health <= 0
  }

  class Enemy {
    const id: string
    var x: int
    var y: int
    var health: int
    var maxHealth: int

    function State(): EnemyState
      reads this
    {
      EnemyState(x, y, health, maxHealth)
    }

    /** `new Enemy(id, x, y)`: full health. */
    constructor (id: string, x: int, y: int)
      ensures this.id == id
      ensures State() == EnemyState(x, y, START_HEALTH, START_HEALTH)
    {
      this.id := id;
      this.x := x;
      this.y := y;
      health := START_HEALTH;
      maxHealth := START_HEALTH;
    }

    /** `takeDamage(damage)`: only the health changes; the result agrees with `isDead` afterwards. */
    method TakeDamage(damage: int) returns (dead: bool)
      modifies this
      ensures State() == old(State()).(health := AfterDamage(old(health), damage))
      ensures dead <==> IsDead(State())
    {
      health := AfterDamage(health, damage);
      dead := health <= 0;
    }

    /** `isDead`. */
    predicate Dead()
      reads this
    {
      IsDead(State())
    }
  }
}
