/**
 * The game server: the players, the live enemies and the kill scores, the
 * broadcast throttle, and the handlers for what clients send (moves, sword
 * swings, map switches) and for connections opening and closing. Clock
 * readings are the `now` parameters; timers are explicit fire methods.
 */
module Server {
  import opened Shapes
  import opened Maps
  import opened Entities
  import opened Combat
  import opened Broadcasting
  import opened MapManagement

  /** Enemies per wave. */
  const WAVE_SIZE := 5
  /** The collision radius a move is validated with. */
  const PLAYER_RADIUS := 10
  /** The delay of the second broadcast after a swing, in milliseconds. */
  const SWING_ECHO_DELAY := 50

  /** `enemy_${i}` for a one-digit `i`. */
  function EnemyId(i: nat): string
    requires i < 10
  {
    "enemy_" + [('0' as int + i) as char]
  }

  lemma EnemyIdInjective(i: nat, j: nat)
    requires i < 10 && j < 10
    ensures EnemyId(i) == EnemyId(j) <==> i == j
  {
    if EnemyId(i) == EnemyId(j) {
      assert EnemyId(i)[6] == EnemyId(j)[6];
    }
  }

  /** The enemy table `spawnEnemies` builds from the drawn points: `enemy_i` at point `i`, at full health. */
  function Wave(spawns: seq<Point>): map<string, EnemyState>
    requires |spawns| <= 10
    decreases |spawns|
  {
    if |spawns| == 0 then map[]
    else
      var i := |spawns| - 1;
      Wave(spawns[..i])[EnemyId(i) := EnemyState(spawns[i].x, spawns[i].y, START_HEALTH, START_HEALTH)]
  }

  /** The ids `enemy_0` ... `enemy_{n-1}`. */
  function WaveIds(n: nat): (r: set<string>)
    requires n <= 10
    ensures forall m :: 0 <= m < 10 ==> (EnemyId(m) in r <==> m < n)
    ensures |r| == n
  {
    if n == 0 then {}
    else
      var prev := WaveIds(n - 1);
      assert EnemyId(n - 1) !in prev;
      forall m | 0 <= m < 10 ensures EnemyId(m) == EnemyId(n - 1) <==> m == n - 1 {
        EnemyIdInjective(m, n - 1);
      }
      prev + {EnemyId(n - 1)}
  }

  /** A wave holds exactly the ids `enemy_0` ... `enemy_{n-1}`, each once. */
  lemma {:induction false} WaveKeys(spawns: seq<Point>)
    requires |spawns| <= 10
    ensures Wave(spawns).Keys == WaveIds(|spawns|)
    decreases |spawns|
  {
    if |spawns| > 0 {
      WaveKeys(spawns[..|spawns| - 1]);
    }
  }

  /** ... and `enemy_i` stands at point `i` with full health. */
  lemma {:induction false} WaveValues(spawns: seq<Point>)
    requires |spawns| <= 10
    ensures forall i :: 0 <= i < |spawns| ==>
      EnemyId(i) in Wave(spawns) && Wave(spawns)[EnemyId(i)] == EnemyState(spawns[i].x, spawns[i].y, START_HEALTH, START_HEALTH)
    decreases |spawns|
  {
    if |spawns| > 0 {
      var n := |spawns| - 1;
      var init := spawns[..n];
      WaveValues(init);
      forall i | 0 <= i < |spawns|
        ensures EnemyId(i) in Wave(spawns) && Wave(spawns)[EnemyId(i)] == EnemyState(spawns[i].x, spawns[i].y, START_HEALTH, START_HEALTH)
      {
        if i < n {
          EnemyIdInjective(i, n);
          assert init[i] == spawns[i];
        }
      }
    }
  }

  /**
   * A wave of `WAVE_SIZE` enemies drawn from map `m`'s enemy spawn pool by
   * `getEnemySpawnPoints` as the program has it: only `AsWrittenDraws` of
   * them come from the pool, the rest are random points.
   */
  ghost predicate IsWave(es: map<string, EnemyState>, m: GameMap) {
    exists spawns ::
      && SpawnDraw(spawns, WAVE_SIZE, AsWrittenDraws(WAVE_SIZE, |m.enemySpawnPoints|, 0), m.enemySpawnPoints, m.boundaries)
      && es == Wave(spawns)
  }

  /** The enemy table after a swing from `p` facing `f`: a fresh wave on map `m` when the swing hit and left no enemy, otherwise the survivors. */
  ghost predicate SwingResolved(before: map<string, EnemyState>, p: Point, f: Facing, after: map<string, EnemyState>, m: GameMap) {
    if |Struck(before, p, f)| > 0 && AfterSwing(before, p, f) == map[] then IsWave(after, m)
    else after == AfterSwing(before, p, f)
  }

  /** A fresh wave is `enemy_0` ... `enemy_4`, all at full health. */
  lemma WaveIsFull(es: map<string, EnemyState>, m: GameMap)
    requires IsWave(es, m)
    ensures es.Keys == WaveIds(WAVE_SIZE) && |es.Keys| == WAVE_SIZE
    ensures forall k :: k in es ==> es[k].health == START_HEALTH && es[k].maxHealth == START_HEALTH
  {
    var spawns :| && SpawnDraw(spawns, WAVE_SIZE, AsWrittenDraws(WAVE_SIZE, |m.enemySpawnPoints|, 0), m.enemySpawnPoints, m.boundaries)
                  && es == Wave(spawns);
    WaveKeys(spawns);
    WaveValues(spawns);
    forall k | k in es ensures es[k].health == START_HEALTH && es[k].maxHealth == START_HEALTH {
      var i :| 0 <= i < WAVE_SIZE && EnemyId(i) == k;
    }
  }

  /** The sweep before a flush, over every player. */
  function Swept(ps: map<string, PlayerState>, now: int): (r: map<string, PlayerState>)
    ensures r.Keys == ps.Keys
  {
    map k | k in ps :: SweepOne(ps[k], now)
  }

  /** The sweep never moves a player or turns it round. */
  lemma SweptKeepsPlace(ps: map<string, PlayerState>, now: int, k: string)
    requires k in ps
    ensures k in Swept(ps, now)
    ensures Swept(ps, now)[k].x == ps[k].x && Swept(ps, now)[k].y == ps[k].y && Swept(ps, now)[k].facing == ps[k].facing
  {
  }

  /** Only expired swings are cleared; every other player is left as it was. */
  lemma SweptClearsExactlyExpired(ps: map<string, PlayerState>, now: int, k: string)
    requires k in ps
    ensures Swept(ps, now)[k] == if SwingExpired(ps[k], now) then Cleared(ps[k]) else ps[k]
    ensures !SwingExpired(Swept(ps, now)[k], now)
    ensures Swept(Swept(ps, now), now) == Swept(ps, now)
  {
    forall j | j in ps ensures Swept(Swept(ps, now), now)[j] == Swept(ps, now)[j] {
      SweepIdempotent(ps[j], now);
    }
  }

  /** The players after a broadcast request: swept when the request flushes at once. */
  function AfterBroadcast(ps: map<string, PlayerState>, t: Throttle, priority: bool, now: int): map<string, PlayerState> {
    if Decide(t, priority, now) == SendNow then Swept(ps, now) else ps
  }

  /** The enemy table part-way through a swing, while the enemies in `todo` are still to be dealt with. */
  function SwingSoFar(es: map<string, EnemyState>, p: Point, f: Facing, todo: set<string>): map<string, EnemyState> {
    map k | k in es && (k in todo || k !in Killed(es, p, f)) :: if k !in todo && k in Struck(es, p, f) then Damaged(es[k]) else es[k]
  }

  /** An enemy still to be dealt with is in the table, as it was before the swing. */
  lemma SwingStarted(es: map<string, EnemyState>, p: Point, f: Facing, todo: set<string>, id: string)
    requires id in es && id in todo
    ensures id in SwingSoFar(es, p, f, todo) && SwingSoFar(es, p, f, todo)[id] == es[id]
  {
  }

  /**
   * Dealing with one more enemy: untouched if missed, damaged if hit, gone
   * if killed; the hit and kill counts grow by one exactly then.
   */
  lemma SwingAdvances(es: map<string, EnemyState>, p: Point, f: Facing, todo: set<string>, id: string, hit: bool, died: bool)
    requires id in es && id in todo
    requires hit == Hits(p, f, Position(es[id])) && died == (hit && IsDead(Damaged(es[id])))
    ensures SwingSoFar(es, p, f, todo - {id}) ==
      if died then SwingSoFar(es, p, f, todo) - {id}
      else if hit then SwingSoFar(es, p, f, todo)[id := Damaged(es[id])]
      else SwingSoFar(es, p, f, todo)
    ensures |Struck(es, p, f) - (todo - {id})| == |Struck(es, p, f) - todo| + if hit then 1 else 0
    ensures |Killed(es, p, f) - (todo - {id})| == |Killed(es, p, f) - todo| + if died then 1 else 0
  {
    SwingTableAdvances(es, p, f, todo, id, hit, died);
    SwingCountsAdvance(es, p, f, todo, id, hit, died);
  }

  lemma SwingTableAdvances(es: map<string, EnemyState>, p: Point, f: Facing, todo: set<string>, id: string, hit: bool, died: bool)
    requires id in es && id in todo
    requires hit == Hits(p, f, Position(es[id])) && died == (hit && IsDead(Damaged(es[id])))
    ensures SwingSoFar(es, p, f, todo - {id}) ==
      if died then SwingSoFar(es, p, f, todo) - {id}
      else if hit then SwingSoFar(es, p, f, todo)[id := Damaged(es[id])]
      else SwingSoFar(es, p, f, todo)
  {
    assert id in Struck(es, p, f) <==> hit;
    assert id in Killed(es, p, f) <==> died;
  }

  lemma SwingCountsAdvance(es: map<string, EnemyState>, p: Point, f: Facing, todo: set<string>, id: string, hit: bool, died: bool)
    requires id in es && id in todo
    requires hit == Hits(p, f, Position(es[id])) && died == (hit && IsDead(Damaged(es[id])))
    ensures |Struck(es, p, f) - (todo - {id})| == |Struck(es, p, f) - todo| + if hit then 1 else 0
    ensures |Killed(es, p, f) - (todo - {id})| == |Killed(es, p, f) - todo| + if died then 1 else 0
  {
    assert id in Struck(es, p, f) <==> hit;
    CountStep(Struck(es, p, f), todo, id);
    assert id in Killed(es, p, f) <==> died;
    CountStep(Killed(es, p, f), todo, id);
  }

  /** Taking `id` off the ids still to do adds it to the ones done: one more of `s` is counted exactly when `id` is in `s`. */
  lemma CountStep(s: set<string>, todo: set<string>, id: string)
    requires id in todo
    ensures |s - (todo - {id})| == |s - todo| + if id in s then 1 else 0
  {
    if id in s {
      assert s - (todo - {id}) == (s - todo) + {id};
    } else {
      assert s - (todo - {id}) == s - todo;
    }
  }

  /** Before any enemy the table is as it was; after all of them it is `AfterSwing`. */
  lemma SwingEnds(es: map<string, EnemyState>, p: Point, f: Facing)
    ensures SwingSoFar(es, p, f, es.Keys) == es
    ensures SwingSoFar(es, p, f, {}) == AfterSwing(es, p, f)
    ensures Struck(es, p, f) - {} == Struck(es, p, f) && Killed(es, p, f) - {} == Killed(es, p, f)
    ensures Struck(es, p, f) - es.Keys == {} && Killed(es, p, f) - es.Keys == {}
  {
  }

  /** Crediting one more kill. */
  lemma CreditedStep(scores: map<string, int>, id: string, kills: nat)
    ensures Credited(Credited(scores, id, kills), id, 1) == Credited(scores, id, kills + 1)
  {
  }

  /** Crediting a player that has a score adds no entry and keeps every score non-negative. */
  lemma CreditedKeeps(scores: map<string, int>, id: string, kills: nat)
    requires id in scores
    ensures Credited(scores, id, kills).Keys == scores.Keys
    ensures (forall k :: k in scores ==> scores[k] >= 0) ==> forall k :: k in Credited(scores, id, kills) ==> Credited(scores, id, kills)[k] >= 0
  {
  }

  /** No two keys share a value: each entry is its own object. */
  predicate Distinct<V(==)>(m: map<string, V>) {
    forall a, b :: a in m && b in m && a != b ==> m[a] != m[b]
  }

  /** Part of a table of distinct objects is a table of distinct objects. */
  lemma DistinctPart<V>(m: map<string, V>, whole: map<string, V>)
    requires forall k :: k in m ==> k in whole && m[k] == whole[k]
    requires Distinct(whole)
    ensures Distinct(m)
  {
  }

  /** The next wave entry: `enemy_i` at point `i`, an id not used before. */
  lemma WaveGrows(spawns: seq<Point>, i: nat)
    requires i < |spawns| <= 10
    ensures EnemyId(i) !in Wave(spawns[..i])
    ensures Wave(spawns[..i + 1]) == Wave(spawns[..i])[EnemyId(i) := EnemyState(spawns[i].x, spawns[i].y, START_HEALTH, START_HEALTH)]
  {
    assert spawns[..i + 1][..i] == spawns[..i];
    WaveKeys(spawns[..i]);
  }

  /** Every enemy of a fresh wave is alive at full health. */
  lemma {:induction false} WaveIsAlive(spawns: seq<Point>)
    requires |spawns| <= 10
    ensures Alive(Wave(spawns))
    decreases |spawns|
  {
    if |spawns| > 0 {
      WaveIsAlive(spawns[..|spawns| - 1]);
    }
  }

  /** Every enemy is alive and not above its maximum health. */
  predicate Alive(es: map<string, EnemyState>) {
    forall k :: k in es ==> 0 < es[k].health <= es[k].maxHealth
  }

  /** A swing leaves only live enemies behind: the killed ones are gone and the rest keep some health. */
  lemma SwingKeepsAlive(es: map<string, EnemyState>, p: Point, f: Facing)
    requires Alive(es)
    ensures Alive(AfterSwing(es, p, f))
  {
    forall k | k in AfterSwing(es, p, f) ensures 0 < AfterSwing(es, p, f)[k].health <= AfterSwing(es, p, f)[k].maxHealth {
      AfterSwingSurvivors(es, p, f, k);
    }
  }

  /** `playerScores.set(id, (playerScores.get(id) || 0) + 1)` once per kill. */
  function Credited(scores: map<string, int>, id: string, kills: nat): map<string, int> {
    if kills == 0 then scores
    else scores[id := (if id in scores then scores[id] else 0) + kills]
  }

  /** Every player sits under its own id. */
  predicate IdsMatch(ps: map<string, Player>) {
    forall k :: k in ps ==> ps[k].id == k
  }

  /** Exactly the players in `keys` have scores, and none is negative. */
  predicate ScoresFor(scores: map<string, int>, keys: set<string>) {
    scores.Keys == keys && forall k :: k in scores ==> scores[k] >= 0
  }

  /** A player put back at spawn point `sp` with full health (`handleMapSwitch`). */
  function Respawned(p: PlayerState, sp: Point): PlayerState {
    p.(x := sp.x, y := sp.y, health := p.maxHealth)
  }

  /** The players after those in `spots` have been respawned at their points. */
  function RespawnedAt(ps: map<string, PlayerState>, spots: map<string, Point>): (r: map<string, PlayerState>)
    ensures r.Keys == ps.Keys
  {
    map k | k in ps :: if k in spots then Respawned(ps[k], spots[k]) else ps[k]
  }

  /** Respawning nobody changes nothing; respawning one more player changes that player only. */
  lemma RespawnSteps(ps: map<string, PlayerState>, spots: map<string, Point>, id: string, sp: Point)
    ensures RespawnedAt(ps, map[]) == ps
    ensures id in ps && id !in spots ==>
      && RespawnedAt(ps, spots)[id] == ps[id]
      && RespawnedAt(ps, spots[id := sp]) == RespawnedAt(ps, spots)[id := Respawned(ps[id], sp)]
  {
  }

  /** Every spot in `spots` is a point of `pool`. */
  predicate SpotsIn(spots: map<string, Point>, pool: seq<Point>) {
    forall k :: k in spots ==> spots[k] in pool
  }

  /** One more player given a spot from the pool: the ids with a spot are still the ones no longer to do, and every spot is from the pool. */
  lemma SpotsStep(keys: set<string>, todo: set<string>, spots: map<string, Point>, pool: seq<Point>, id: string, sp: Point)
    requires todo <= keys && spots.Keys == keys - todo && id in todo
    requires (forall k :: k in spots ==> spots[k] in pool) && sp in pool
    ensures todo - {id} <= keys && spots[id := sp].Keys == keys - (todo - {id})
    ensures SpotsIn(spots[id := sp], pool)
  {
  }

  /** A player who has just started a 300 ms swing at `now`. */
  function Swung(p: PlayerState, now: int): PlayerState {
    p.(isSwinging := true, swingStartTime := now, swingEndTime := now + SWING_DURATION)
  }

  /** A newly connected player at spawn point `sp`. */
  function Joined(sp: Point): PlayerState {
    PlayerState(sp.x, sp.y, Down, false, 0, 0, START_HEALTH, START_HEALTH, 0)
  }

  /** Where a move by `(dx, dy)` on a `w` by `h` canvas would put player `p`. */
  function MoveTargetOf(p: PlayerState, dx: int, dy: int, w: int, h: int): Point {
    Point(MoveTarget(p.x + dx, w), MoveTarget(p.y + dy, h))
  }

  /** A move that changed the position or the facing, which is what triggers a broadcast. */
  predicate MoveChanges(p: PlayerState, q: PlayerState) {
    q.x != p.x || q.y != p.y || q.facing != p.facing
  }

  /** The players and the throttle after player `id` has become `moved` at `now`: a routine broadcast follows a visible change. */
  function AfterMoveRequest(ps: map<string, PlayerState>, t: Throttle, id: string, moved: PlayerState, now: int)
    : (map<string, PlayerState>, Throttle)
    requires id in ps
  {
    if MoveChanges(ps[id], moved) then (AfterBroadcast(ps[id := moved], t, false, now), AfterRequest(t, false, now))
    else (ps[id := moved], t)
  }

  /** A blocked move draws a correction only when the attempted step is longer than 1. */
  predicate NeedsCorrection(p: PlayerState, target: Point) {
    SqDist(Point(p.x, p.y), target) > 1
  }

  /**
   * The outcome of a move request by player `id` on map `m` with a `w` by
   * `h` canvas: a blocked target leaves the players and the throttle as
   * they were and draws a correction for an open client when the step is
   * longer than 1; an allowed one moves the player and broadcasts a
   * visible change.
   */
  ghost predicate MoveHandled(ps: map<string, PlayerState>, t: Throttle, m: GameMap, id: string, dx: int, dy: int, w: int, h: int,
                              clientOpen: bool, now: int, correction: bool, ps': map<string, PlayerState>, t': Throttle)
  {
    && id in ps
    && var target := MoveTargetOf(ps[id], dx, dy, w, h);
    if m.Blocks(target.x, target.y, PLAYER_RADIUS) then
      && (correction <==> clientOpen && NeedsCorrection(ps[id], target))
      && ps' == ps && t' == t
    else
      && !correction
      && AfterMoveRequest(ps, t, id, Moved(ps[id], dx, dy, w, h, now), now) == (ps', t')
  }

  /** How `handleMapSwitch` ends: an unknown id, a completed switch, or a switch cut short by a map with no player spawn points. */
  datatype SwitchOutcome = UnknownMap | Switched | Aborted

  /** The states of the players in `table`, by id. */
  ghost function StatesOf(table: map<string, Player>): (r: map<string, PlayerState>)
    reads table.Values
    ensures r.Keys == table.Keys
  {
    map k | k in table :: table[k].State()
  }

  /** The players in `table` are those of `ps`, with the ones no longer in `todo` swept at `now`. */
  ghost predicate SweptSoFar(table: map<string, Player>, ps: map<string, PlayerState>, now: int, todo: set<string>)
    reads table.Values
  {
    && ps.Keys == table.Keys
    && forall k :: k in table ==> table[k].State() == if k in todo then ps[k] else SweepOne(ps[k], now)
  }

  /** With nobody left to look at, `SweptSoFar` is the whole sweep. */
  lemma SweptSoFarIsSwept(table: map<string, Player>, ps: map<string, PlayerState>, now: int)
    requires SweptSoFar(table, ps, now, {})
    ensures StatesOf(table) == Swept(ps, now)
  {
  }

  /** The sweep loop of `performBroadcast`: every player whose swing ended more than 500 ms before `now` has it cleared. */
  method SweepEach(table: map<string, Player>, now: int)
    requires Distinct(table)
    modifies table.Values
    ensures StatesOf(table) == Swept(old(StatesOf(table)), now)
  {
    ghost var ps := StatesOf(table);
    var todo := table.Keys;
    while todo != {}
      invariant todo <= table.Keys
      invariant SweptSoFar(table, ps, now, todo)
      decreases |todo|
    {
      var id :| id in todo;
      SweepPlayer(table, id, now);
      todo := todo - {id};
    }
    SweptSoFarIsSwept(table, ps, now);
  }

  /** One pass of the sweep loop: the player under `id` has its swing cleared if it has expired; nobody else changes. */
  method SweepPlayer(table: map<string, Player>, id: string, now: int)
    requires id in table && Distinct(table)
    modifies table[id]
    ensures table[id].State() == SweepOne(old(table[id].State()), now)
  {
    var player := table[id];
    if player.isSwinging && player.swingEndTime != 0 && now > player.swingEndTime + 500 {
      player.ClearSwing();
    }
  }

  /**
   * How the respawn loop used the spawn rotation: the players in `spots`
   * were respawned one at a time in the order `order`, the `i`-th at pool
   * index `picks[i]`, and those calls of `getPlayerSpawnPoint` moved the
   * map's used set from `before` to `after`.
   */
  ghost predicate RotationOf(spots: map<string, Point>, pool: seq<Point>, order: seq<string>, picks: seq<int>,
                             before: set<int>, after: set<int>) {
    && |order| == |picks| == |spots|
    && (forall k :: k in spots <==> k in order)
    && (forall i :: 0 <= i < |order| ==> 0 <= picks[i] < |pool| && order[i] in spots && spots[order[i]] == pool[picks[i]])
    && PickRun(|pool|, before, picks, after)
  }

  /** Respawning one more player at the next pick extends the rotation by one. */
  lemma RotationStep(spots: map<string, Point>, pool: seq<Point>, order: seq<string>, picks: seq<int>,
                     before: set<int>, mid: set<int>, id: string, k: int, after: set<int>)
    requires RotationOf(spots, pool, order, picks, before, mid)
    requires id !in spots && PickStep(|pool|, mid, k, after)
    ensures RotationOf(spots[id := pool[k]], pool, order + [id], picks + [k], before, after)
  {
    PickRunExtend(|pool|, before, picks, mid, k, after);
    var spots', order', picks' := spots[id := pool[k]], order + [id], picks + [k];
    forall i | 0 <= i < |order'|
      ensures 0 <= picks'[i] < |pool| && order'[i] in spots' && spots'[order'[i]] == pool[picks'[i]]
    {
      if i < |order| {
        assert order'[i] == order[i] && picks'[i] == picks[i];
      }
    }
    forall j ensures j in spots' <==> j in order' {
      assert j in order' <==> j in order || j == id;
    }
  }

  /**
   * The respawn loop of `handleMapSwitch`: each player in `table` in turn
   * draws a spawn point from `m` and is put there with full health. The
   * first draw from a map without player spawn points ends the loop, with
   * nobody moved.
   */
  method RespawnEach(table: map<string, Player>, m: GameMap)
    returns (complete: bool, ghost spots: map<string, Point>, ghost order: seq<string>, ghost picks: seq<int>)
    requires Distinct(table)
    modifies table.Values, m`usedPlayerSpawns
    ensures complete <==> |table| == 0 || |m.playerSpawnPoints| > 0
    ensures !complete ==> StatesOf(table) == old(StatesOf(table))
    ensures complete ==>
      && spots.Keys == table.Keys
      && SpotsIn(spots, m.playerSpawnPoints)
      && StatesOf(table) == RespawnedAt(old(StatesOf(table)), spots)
      && RotationOf(spots, m.playerSpawnPoints, order, picks, old(m.usedPlayerSpawns), m.usedPlayerSpawns)
  {
    ghost var ps := StatesOf(table);
    ghost var before := m.usedPlayerSpawns;
    spots, order, picks := map[], [], [];
    var todo := table.Keys;
    ProgressStart(table, m, ps);
    while todo != {}
      invariant RespawnProgress(table, m, ps, before, todo, spots, order, picks)
      invariant |m.playerSpawnPoints| == 0 ==> spots == map[]
      invariant todo != table.Keys ==> |m.playerSpawnPoints| > 0
      decreases |todo|
    {
      var id :| id in todo;
      var spawnPoint, k := RespawnNext(table, m, id, ps, before, todo, spots, order, picks);
      if spawnPoint.None? {
        SoFarIsStates(table, ps, spots);
        return false, spots, order, picks;
      }
      spots, order, picks := spots[id := spawnPoint.value], order + [id], picks + [k];
      todo := todo - {id};
    }
    ProgressDone(table, m, ps, before, spots, order, picks);
    return true, spots, order, picks;
  }

  /** Before the first pass nobody is respawned and the rotation has not moved. */
  lemma ProgressStart(table: map<string, Player>, m: GameMap, ps: map<string, PlayerState>)
    requires ps == StatesOf(table)
    ensures RespawnProgress(table, m, ps, m.usedPlayerSpawns, table.Keys, map[], [], [])
  {
  }

  /** With nobody left to do, the respawn loop's progress is the whole postcondition. */
  lemma ProgressDone(table: map<string, Player>, m: GameMap, ps: map<string, PlayerState>, before: set<int>,
                     spots: map<string, Point>, order: seq<string>, picks: seq<int>)
    requires RespawnProgress(table, m, ps, before, {}, spots, order, picks)
    ensures spots.Keys == table.Keys && SpotsIn(spots, m.playerSpawnPoints)
    ensures StatesOf(table) == RespawnedAt(ps, spots)
    ensures RotationOf(spots, m.playerSpawnPoints, order, picks, before, m.usedPlayerSpawns)
  {
    SoFarIsStates(table, ps, spots);
  }

  /**
   * The respawn loop part way: the players no longer in `todo` are those in
   * `spots`, respawned there one at a time in the order `order` by the
   * spawn rotation of `m`, which started at `before`.
   */
  ghost predicate RespawnProgress(table: map<string, Player>, m: GameMap, ps: map<string, PlayerState>, before: set<int>,
                                  todo: set<string>, spots: map<string, Point>, order: seq<string>, picks: seq<int>)
    reads table.Values, m`usedPlayerSpawns
  {
    && todo <= table.Keys && spots.Keys == table.Keys - todo
    && SpotsIn(spots, m.playerSpawnPoints)
    && RespawnedSoFar(table, ps, spots)
    && RotationOf(spots, m.playerSpawnPoints, order, picks, before, m.usedPlayerSpawns)
  }

  /** The players in `table` are those of `ps` with the ones in `spots` respawned there. */
  ghost predicate RespawnedSoFar(table: map<string, Player>, ps: map<string, PlayerState>, spots: map<string, Point>)
    reads table.Values
  {
    && ps.Keys == table.Keys
    && forall k :: k in table ==> table[k].State() == if k in spots then Respawned(ps[k], spots[k]) else ps[k]
  }

  /** `RespawnedSoFar` describes the whole table; with nobody respawned it is the table as it was. */
  lemma SoFarIsStates(table: map<string, Player>, ps: map<string, PlayerState>, spots: map<string, Point>)
    requires RespawnedSoFar(table, ps, spots)
    ensures StatesOf(table) == RespawnedAt(ps, spots)
    ensures spots == map[] ==> StatesOf(table) == ps
  {
    RespawnSteps(ps, spots, "", Point(0, 0));
  }

  /**
   * One pass of the respawn loop: a spawn point is drawn from `m` and the
   * player under `id` is put there with full health; with no point to draw
   * nothing changes.
   */
  method RespawnTurn(table: map<string, Player>, m: GameMap, id: string, ghost ps: map<string, PlayerState>,
                     ghost todo: set<string>, ghost spots: map<string, Point>) returns (sp: Option<Point>, ghost k: int)
    requires Distinct(table) && id in todo && todo <= table.Keys && spots.Keys == table.Keys - todo
    requires SpotsIn(spots, m.playerSpawnPoints)
    requires RespawnedSoFar(table, ps, spots)
    modifies table[id], m`usedPlayerSpawns
    ensures sp.None? <==> |m.playerSpawnPoints| == 0
    ensures sp.None? ==> unchanged(table.Values)
    ensures sp.Some? ==>
      && PickStep(|m.playerSpawnPoints|, old(m.usedPlayerSpawns), k, m.usedPlayerSpawns)
      && sp.value == m.playerSpawnPoints[k]
      && todo - {id} <= table.Keys && spots[id := sp.value].Keys == table.Keys - (todo - {id})
      && SpotsIn(spots[id := sp.value], m.playerSpawnPoints)
      && RespawnedSoFar(table, ps, spots[id := sp.value])
  {
    sp := m.GetPlayerSpawnPoint();
    if sp.None? {
      return sp, 0;
    }
    k :| PickStep(|m.playerSpawnPoints|, old(m.usedPlayerSpawns), k, m.usedPlayerSpawns) && sp.value == m.playerSpawnPoints[k];
    RespawnPlayer(table, id, sp.value);
    SpotsStep(table.Keys, todo, spots, m.playerSpawnPoints, id, sp.value);
  }

  /** One pass of the respawn loop, from progress to progress: the player under `id` is respawned at the next pick. */
  method RespawnNext(table: map<string, Player>, m: GameMap, id: string, ghost ps: map<string, PlayerState>, ghost before: set<int>,
                     ghost todo: set<string>, ghost spots: map<string, Point>, ghost order: seq<string>, ghost picks: seq<int>)
    returns (sp: Option<Point>, ghost k: int)
    requires Distinct(table) && id in todo
    requires RespawnProgress(table, m, ps, before, todo, spots, order, picks)
    modifies table[id], m`usedPlayerSpawns
    ensures sp.None? <==> |m.playerSpawnPoints| == 0
    ensures sp.None? ==> unchanged(table.Values) && RespawnedSoFar(table, ps, spots)
    ensures sp.Some? ==> 0 <= k < |m.playerSpawnPoints| && sp.value == m.playerSpawnPoints[k]
    ensures sp.Some? ==> RespawnProgress(table, m, ps, before, todo - {id}, spots[id := sp.value], order + [id], picks + [k])
  {
    ghost var used := m.usedPlayerSpawns;
    assert RotationOf(spots, m.playerSpawnPoints, order, picks, before, used);
    sp, k := RespawnTurn(table, m, id, ps, todo, spots);
    if sp.Some? {
      ProgressStep(table, m, ps, before, used, todo, spots, order, picks, id, k);
    }
  }

  /** One more player respawned at the next pick of the rotation keeps the respawn loop's progress. */
  lemma ProgressStep(table: map<string, Player>, m: GameMap, ps: map<string, PlayerState>, before: set<int>, used: set<int>,
                     todo: set<string>, spots: map<string, Point>, order: seq<string>, picks: seq<int>, id: string, k: int)
    requires RotationOf(spots, m.playerSpawnPoints, order, picks, before, used) && id in todo && spots.Keys == table.Keys - todo
    requires PickStep(|m.playerSpawnPoints|, used, k, m.usedPlayerSpawns)
    requires todo - {id} <= table.Keys && spots[id := m.playerSpawnPoints[k]].Keys == table.Keys - (todo - {id})
    requires SpotsIn(spots[id := m.playerSpawnPoints[k]], m.playerSpawnPoints)
    requires RespawnedSoFar(table, ps, spots[id := m.playerSpawnPoints[k]])
    ensures RespawnProgress(table, m, ps, before, todo - {id}, spots[id := m.playerSpawnPoints[k]], order + [id], picks + [k])
  {
    RotationStep(spots, m.playerSpawnPoints, order, picks, before, used, id, k, m.usedPlayerSpawns);
  }

  /** One pass of the respawn loop: the player under `id` is put at `sp` with full health. */
  method RespawnPlayer(table: map<string, Player>, id: string, sp: Point)
    requires id in table && Distinct(table)
    modifies table[id]
    ensures table[id].State() == Respawned(old(table[id].State()), sp)
    ensures forall k :: k in table && k != id ==> table[k].State() == old(table[k].State())
  {
    var player := table[id];
    player.x := sp.x;
    player.y := sp.y;
    player.health := player.maxHealth;
  }

  class GameServer {
    const mapManager: MapManager
    var players: map<string, Player>
    var enemies: map<string, Enemy>
    var playerScores: map<string, int>
    var lastBroadcastTime: int
    var pendingBroadcast: bool
    /** When the deferred broadcast's timer fires (meaningful only while one is pending). */
    var pendingDue: int
    /** When the outstanding 50 ms re-broadcasts after swings fire, oldest first. */
    var swingEchoes: seq<int>

    /** The map registry is consistent, and so are the player and enemy tables. */
    ghost predicate Valid()
      reads this`players, this`playerScores, this`enemies, enemies.Values, mapManager`maps, mapManager`order, mapManager`currentMapId
    {
      mapManager.Valid() && PlayersValid() && EnemiesValid()
    }

    /** The current map id is registered, so the current map can be looked up. */
    predicate MapReady()
      reads mapManager`maps, mapManager`currentMapId
    {
      mapManager.currentMapId in mapManager.maps
    }

    /** Players sit under their own ids, each its own object, and exactly they have (non-negative) scores. */
    ghost predicate PlayersValid()
      reads this`players, this`playerScores
    {
      IdsMatch(players) && Distinct(players) && ScoresFor(playerScores, players.Keys)
    }

    /** Each enemy is its own object, alive and not above its maximum health. */
    ghost predicate EnemiesValid()
      reads this`enemies, enemies.Values
    {
      Distinct(enemies) && Alive(EnemyStates())
    }

    ghost function PlayerStates(): map<string, PlayerState>
      reads this`players, players.Values
    {
      map k | k in players :: players[k].State()
    }

    ghost function EnemyStates(): (r: map<string, EnemyState>)
      reads this`enemies, enemies.Values
      ensures r.Keys == enemies.Keys
    {
      map k | k in enemies :: enemies[k].State()
    }

    function ThrottleState(): Throttle
      reads this`lastBroadcastTime, this`pendingBroadcast, this`pendingDue
    {
      Throttle(lastBroadcastTime, pendingBroadcast, pendingDue)
    }

    ghost function CurrentMap(): GameMap
      reads mapManager`maps, mapManager`currentMapId
      requires mapManager.currentMapId in mapManager.maps
    {
      mapManager.maps[mapManager.currentMapId]
    }

    /**
     * The state after the players, starting from `ps0`, were respawned on the
     * current map and the round restarted: every player sits at its spawn pick
     * of the map's rotation from `used0`, swings are swept, a fresh wave is out
     * and the broadcast of `ts0` is stamped `now`.
     */
    ghost predicate Relocated(ps0: map<string, PlayerState>, used0: set<int>, ts0: Throttle,
                              spots: map<string, Point>, order: seq<string>, picks: seq<int>, now: int)
      reads this, players.Values, enemies.Values, mapManager`maps, mapManager`currentMapId, mapManager.maps.Values
    {
      && mapManager.currentMapId in mapManager.maps
      && spots.Keys == players.Keys
      && (forall k :: k in spots ==> spots[k] in CurrentMap().playerSpawnPoints)
      && RotationOf(spots, CurrentMap().playerSpawnPoints, order, picks, used0, CurrentMap().usedPlayerSpawns)
      && PlayerStates() == Swept(RespawnedAt(ps0, spots), now)
      && IsWave(EnemyStates(), CurrentMap())
      && ThrottleState() == ts0.(lastBroadcastTime := now)
    }

    /** `new GameServer()`: no players or enemies yet; `custom` stands for the parsed map files. */
    constructor (custom: seq<MapSpec>)
      ensures Valid()
      ensures players == map[] && enemies == map[] && playerScores == map[] && swingEchoes == []
      ensures ThrottleState() == Throttle(0, false, 0)
      ensures fresh(mapManager) && mapManager.Specs() == Registry(Loaded(custom))
      ensures mapManager.order == OrderOf(Loaded(custom))
      ensures Some(mapManager.currentMapId) == InitialMapId(Loaded(custom))
    {
      mapManager := new MapManager(custom);
      players := map[];
      enemies := map[];
      playerScores := map[];
      lastBroadcastTime := 0;
      pendingBroadcast := false;
      pendingDue := 0;
      swingEchoes := [];
    }

    /** `initialize`, without the HTTP and WebSocket wiring: the first wave is spawned on the current map. */
    method Initialize()
      requires Valid()
      modifies this`enemies
      ensures Valid()
      ensures IsWave(EnemyStates(), CurrentMap())
    {
      SpawnEnemies();
    }

    /** `spawnEnemies`: the enemy table is replaced by a fresh wave drawn from the current map. */
    method SpawnEnemies()
      requires MapReady()
      modifies this`enemies
      ensures EnemiesValid()
      ensures IsWave(EnemyStates(), CurrentMap())
      ensures forall k :: k in enemies ==> fresh(enemies[k])
      ensures unchanged(mapManager) && unchanged(players.Values) && unchanged(this`players, this`playerScores, this`swingEchoes)
      ensures unchanged(this`lastBroadcastTime, this`pendingBroadcast, this`pendingDue)
    {
      var m := mapManager.maps[mapManager.currentMapId];
      var spawnPoints := m.GetEnemySpawnPointsAsWritten(Some(WAVE_SIZE));
      enemies := map[];
      var i := 0;
      while i < |spawnPoints|
        invariant i <= |spawnPoints| == WAVE_SIZE
        invariant EnemyStates() == Wave(spawnPoints[..i])
        invariant forall k :: k in enemies ==> fresh(enemies[k])
        invariant Distinct(enemies)
      {
        WaveGrows(spawnPoints, i);
        var spawn := spawnPoints[i];
        AddEnemy(EnemyId(i), spawn.x, spawn.y);
        i := i + 1;
      }
      assert spawnPoints[..i] == spawnPoints;
      WaveIsAlive(spawnPoints);
    }

    /** `this.enemies.set(id, new Enemy(id, x, y))` for an id not yet in the table. */
    method AddEnemy(id: string, x: int, y: int)
      requires id !in enemies
      modifies this`enemies
      ensures id in enemies && fresh(enemies[id]) && enemies == old(enemies)[id := enemies[id]]
      ensures EnemyStates() == old(EnemyStates())[id := EnemyState(x, y, START_HEALTH, START_HEALTH)]
    {
      var e := new Enemy(id, x, y);
      enemies := enemies[id := e];
    }

    /**
     * `checkSwordCollisions(player)`: every enemy the swing hits loses 10
     * health; the ones that die leave the table and each is credited to the
     * player. The result is the number of enemies hit.
     */
    method CheckSwordCollisions(player: Player) returns (hitCount: nat)
      requires EnemiesValid()
      modifies this`enemies, this`playerScores, enemies.Values
      ensures EnemiesValid()
      ensures player.x == old(player.x) && player.y == old(player.y) && player.facing == old(player.facing)
      ensures EnemyStates() == AfterSwing(old(EnemyStates()), Point(player.x, player.y), player.facing)
      ensures hitCount == |Struck(old(EnemyStates()), Point(player.x, player.y), player.facing)|
      ensures playerScores == Credited(old(playerScores), player.id, |Killed(old(EnemyStates()), Point(player.x, player.y), player.facing)|)
      ensures forall k :: k in enemies ==> k in old(enemies) && enemies[k] == old(enemies[k])
      ensures unchanged(mapManager) && unchanged(players.Values)
      ensures unchanged(this`players, this`swingEchoes, this`lastBroadcastTime, this`pendingBroadcast, this`pendingDue)
    {
      hitCount := SwingAll(Point(player.x, player.y), player.facing, player.id);
    }

    /** The loop of `checkSwordCollisions`, for a swing from `pos` facing `f` by `attacker`. */
    method SwingAll(pos: Point, f: Facing, attacker: string) returns (hitCount: nat)
      requires EnemiesValid()
      modifies this`enemies, this`playerScores, enemies.Values
      ensures EnemiesValid()
      ensures EnemyStates() == AfterSwing(old(EnemyStates()), pos, f)
      ensures hitCount == |Struck(old(EnemyStates()), pos, f)|
      ensures playerScores == Credited(old(playerScores), attacker, |Killed(old(EnemyStates()), pos, f)|)
      ensures forall k :: k in enemies ==> k in old(enemies) && enemies[k] == old(enemies[k])
    {
      ghost var es := EnemyStates();
      SwingEnds(es, pos, f);
      var todo := enemies.Keys;
      hitCount := 0;
      while todo != {}
        invariant todo <= es.Keys
        invariant EnemyStates() == SwingSoFar(es, pos, f, todo)
        invariant forall k :: k in enemies ==> k in old(enemies) && enemies[k] == old(enemies)[k]
        invariant playerScores == Credited(old(playerScores), attacker, |Killed(es, pos, f) - todo|)
        invariant hitCount == |Struck(es, pos, f) - todo|
        decreases |todo|
      {
        var id :| id in todo;
        SwingStarted(es, pos, f, todo, id);
        assert enemies[id] == old(enemies)[id] && old(enemies)[id] in old(enemies).Values;
        var hit := SwingAt(pos, f, attacker, id, es, todo, old(enemies), old(playerScores));
        hitCount := hitCount + if hit then 1 else 0;
        todo := todo - {id};
      }
      DistinctPart(enemies, old(enemies));
      SwingKeepsAlive(es, pos, f);
    }

    /**
     * One pass of the loop in `checkSwordCollisions`: dealing with the enemy
     * under `id` takes the swing one enemy further (`es` is the table before
     * the swing, `todo` the enemies not yet dealt with, `objs` the enemy
     * objects and `scores` the scores before the swing).
     */
    method SwingAt(pos: Point, f: Facing, attacker: string, id: string, ghost es: map<string, EnemyState>,
                   ghost todo: set<string>, ghost objs: map<string, Enemy>, ghost scores: map<string, int>)
      returns (hit: bool)
      requires id in todo && todo <= es.Keys
      requires EnemyStates() == SwingSoFar(es, pos, f, todo)
      requires forall k :: k in enemies ==> k in objs && enemies[k] == objs[k]
      requires Distinct(objs)
      requires playerScores == Credited(scores, attacker, |Killed(es, pos, f) - todo|)
      modifies this`enemies, this`playerScores, enemies[id]
      ensures EnemyStates() == SwingSoFar(es, pos, f, todo - {id})
      ensures forall k :: k in enemies ==> k in objs && enemies[k] == objs[k]
      ensures |Struck(es, pos, f) - (todo - {id})| == |Struck(es, pos, f) - todo| + if hit then 1 else 0
      ensures playerScores == Credited(scores, attacker, |Killed(es, pos, f) - (todo - {id})|)
    {
      SwingStarted(es, pos, f, todo, id);
      var died;
      hit, died := StrikeOne(pos, f, attacker, id, SwingSoFar(es, pos, f, todo), objs);
      SwingAdvances(es, pos, f, todo, id, hit, died);
      if died {
        CreditedStep(scores, attacker, |Killed(es, pos, f) - todo|);
      }
    }

    /**
     * One pass of the loop in `checkSwordCollisions`, for the enemy under
     * `id`: it is damaged if hit, and removed and credited to the player if
     * that kills it.
     */
    method StrikeOne(pos: Point, f: Facing, attacker: string, id: string,
                     ghost before: map<string, EnemyState>, ghost objs: map<string, Enemy>)
      returns (hit: bool, died: bool)
      requires id in enemies && EnemyStates() == before
      requires forall k :: k in enemies ==> k in objs && enemies[k] == objs[k]
      requires Distinct(objs)
      modifies this`enemies, this`playerScores, enemies[id]
      ensures hit == Hits(pos, f, Position(before[id]))
      ensures died == (hit && IsDead(Damaged(before[id])))
      ensures enemies == if died then old(enemies) - {id} else old(enemies)
      ensures EnemyStates() ==
        if died then before - {id}
        else if hit then before[id := Damaged(before[id])]
        else before
      ensures playerScores == if died then Credited(old(playerScores), attacker, 1) else old(playerScores)
    {
      var enemy := enemies[id];
      hit := Hits(pos, f, Point(enemy.x, enemy.y));
      died := false;
      if hit {
        died := DamageEnemy(id, before, objs);
        if died {
          RemoveKilled(id, attacker);
          assert before[id := Damaged(before[id])] - {id} == before - {id};
        }
      }
    }

    /** A killed enemy leaves the table and the kill is credited: `playerScores.set(attacker, (playerScores.get(attacker) || 0) + 1)`. */
    method RemoveKilled(id: string, attacker: string)
      modifies this`enemies, this`playerScores
      ensures enemies == old(enemies) - {id}
      ensures EnemyStates() == old(EnemyStates()) - {id}
      ensures playerScores == Credited(old(playerScores), attacker, 1)
    {
      enemies := enemies - {id};
      var currentScore := if attacker in playerScores then playerScores[attacker] else 0;
      playerScores := playerScores[attacker := currentScore + 1];
    }

    /** `enemy.takeDamage(10)` on the enemy under `id`: no other enemy changes. */
    method DamageEnemy(id: string, ghost before: map<string, EnemyState>, ghost objs: map<string, Enemy>) returns (died: bool)
      requires id in enemies && EnemyStates() == before
      requires forall k :: k in enemies ==> k in objs && enemies[k] == objs[k]
      requires Distinct(objs)
      modifies enemies[id]
      ensures died == IsDead(Damaged(before[id]))
      ensures EnemyStates() == before[id := Damaged(before[id])]
    {
      died := enemies[id].TakeDamage(SWORD_DAMAGE);
    }

    // -------------------------------------------------------------------
    // Broadcasting

    /**
     * `broadcast(data, priority)` at time `now`: the throttle decides
     * whether to flush now, schedule one deferred flush or drop the request;
     * a flush sweeps expired swings first.
     */
    method Broadcast(priority: bool, now: int)
      requires Distinct(players)
      modifies this`lastBroadcastTime, this`pendingBroadcast, this`pendingDue, players.Values
      ensures ThrottleState() == AfterRequest(old(ThrottleState()), priority, now)
      ensures PlayerStates() == AfterBroadcast(old(PlayerStates()), old(ThrottleState()), priority, now)
      ensures unchanged(mapManager) && unchanged(enemies.Values)
      ensures unchanged(this`players, this`enemies, this`playerScores, this`swingEchoes)
    {
      if priority {
        PerformBroadcast(now);
        return;
      }
      if now - lastBroadcastTime < BROADCAST_INTERVAL {
        if !pendingBroadcast {
          pendingBroadcast := true;
          pendingDue := now + (BROADCAST_INTERVAL - (now - lastBroadcastTime));
        }
        return;
      }
      PerformBroadcast(now);
    }

    /** `performBroadcast` at time `now`, up to the serialisation: the time is stamped and every expired swing is cleared. */
    method PerformBroadcast(now: int)
      requires Distinct(players)
      modifies this`lastBroadcastTime, players.Values
      ensures lastBroadcastTime == now
      ensures PlayerStates() == Swept(old(PlayerStates()), now)
    {
      lastBroadcastTime := now;
      assert PlayerStates() == StatesOf(players);
      SweepEach(players, now);
      assert PlayerStates() == StatesOf(players);
    }

    /** The deferred flush's timer firing at `now`: it flushes and clears the pending flag. */
    method FirePendingBroadcast(now: int)
      requires pendingBroadcast && Distinct(players)
      modifies this`lastBroadcastTime, this`pendingBroadcast, players.Values
      ensures ThrottleState() == AfterTimer(old(ThrottleState()), now)
      ensures PlayerStates() == Swept(old(PlayerStates()), now)
    {
      PerformBroadcast(now);
      pendingBroadcast := false;
    }

    /** The oldest 50 ms re-broadcast after a swing firing at `now`: a priority broadcast. */
    method FireSwingEcho(now: int)
      requires swingEchoes != [] && Distinct(players)
      modifies this`swingEchoes, this`lastBroadcastTime, this`pendingBroadcast, this`pendingDue, players.Values
      ensures swingEchoes == old(swingEchoes[1..])
      ensures ThrottleState() == old(ThrottleState()).(lastBroadcastTime := now)
      ensures PlayerStates() == Swept(old(PlayerStates()), now)
    {
      swingEchoes := swingEchoes[1..];
      Broadcast(true, now);
    }

    // -------------------------------------------------------------------
    // Client messages

    /**
     * `handlePlayerMove(playerId, data)` at time `now`. The canvas size
     * falls back to the map's when missing or zero; the clamped target is
     * checked against the current map with radius 10. A blocked move
     * changes nothing and asks for a correction when the attempted step is
     * longer than 1 and the client's connection is open (`clientOpen`); an
     * allowed one moves the player and broadcasts if anything changed.
     */
    method HandlePlayerMove(playerId: string, dx: int, dy: int, canvasWidth: Option<int>, canvasHeight: Option<int>,
                            clientOpen: bool, now: int)
      returns (correction: bool)
      requires mapManager.Valid() && PlayersValid()
      modifies this`lastBroadcastTime, this`pendingBroadcast, this`pendingDue, players.Values
      ensures PlayersValid()
      ensures playerId !in players ==>
        !correction && PlayerStates() == old(PlayerStates()) && ThrottleState() == old(ThrottleState())
      ensures playerId in players ==>
        MoveHandled(old(PlayerStates()), old(ThrottleState()), CurrentMap(), playerId, dx, dy,
                    OrInt(canvasWidth, CurrentMap().width), OrInt(canvasHeight, CurrentMap().height),
                    clientOpen, now, correction, PlayerStates(), ThrottleState())
    {
      correction := false;
      if playerId !in players {
        return;
      }
      var player := players[playerId];
      ghost var p := PlayerStates()[playerId];
      assert p == player.State();
      var currentMap := mapManager.maps[mapManager.currentMapId];
      var canvasWidth := OrInt(canvasWidth, currentMap.width);
      var canvasHeight := OrInt(canvasHeight, currentMap.height);
      var newX := Max(MOVE_MIN, Min(canvasWidth - MOVE_MARGIN, player.x + dx));
      var newY := Max(MOVE_MIN, Min(canvasHeight - MOVE_MARGIN, player.y + dy));
      assert Point(newX, newY) == MoveTargetOf(p, dx, dy, canvasWidth, canvasHeight);
      var blocked := currentMap.CheckCollision(newX, newY, Some(PLAYER_RADIUS));
      assert PlayerStates() == old(PlayerStates()) && players == old(players);
      if blocked {
        if clientOpen {
          correction := SqDist(Point(player.x, player.y), Point(newX, newY)) > 1;
        }
        return;
      }
      ApplyMove(playerId, dx, dy, canvasWidth, canvasHeight, now);
    }

    /** An allowed move: `player.move(...)`, then a routine broadcast when position or facing changed. */
    method ApplyMove(id: string, dx: int, dy: int, canvasWidth: int, canvasHeight: int, now: int)
      requires id in players && Distinct(players)
      modifies this`lastBroadcastTime, this`pendingBroadcast, this`pendingDue, players.Values
      ensures AfterMoveRequest(old(PlayerStates()), old(ThrottleState()), id,
                               Moved(old(PlayerStates())[id], dx, dy, canvasWidth, canvasHeight, now), now)
              == (PlayerStates(), ThrottleState())
      ensures unchanged(this`players, this`playerScores)
      ensures unchanged(mapManager)
    {
      var positionChanged := MovePlayer(id, dx, dy, canvasWidth, canvasHeight, now);
      if positionChanged {
        Broadcast(false, now);
      }
    }

    /** `player.move(...)` on the player under `id`: no other player changes. */
    method MovePlayer(id: string, dx: int, dy: int, canvasWidth: int, canvasHeight: int, now: int) returns (changed: bool)
      requires id in players && Distinct(players)
      modifies players[id]
      ensures players == old(players)
      ensures PlayerStates() == old(PlayerStates())[id := Moved(old(PlayerStates())[id], dx, dy, canvasWidth, canvasHeight, now)]
      ensures changed <==> MoveChanges(old(PlayerStates())[id], PlayerStates()[id])
      ensures unchanged(mapManager)
    {
      changed := players[id].Move(dx, dy, canvasWidth, canvasHeight, now);
    }

    /**
     * `handleSwordSwing(playerId)` at time `now`: the swing starts, a
     * priority broadcast goes out and a second one is queued for 50 ms
     * later, then the swing is resolved; when it hit anything there is
     * another priority broadcast, after a fresh wave if no enemy is left.
     */
    method HandleSwordSwing(playerId: string, now: int)
      requires MapReady() && PlayersValid() && EnemiesValid()
      modifies this`enemies, this`playerScores, enemies.Values, players.Values, this`swingEchoes
      modifies this`lastBroadcastTime, this`pendingBroadcast, this`pendingDue
      ensures PlayersValid() && EnemiesValid()
      ensures playerId !in players ==>
        && PlayerStates() == old(PlayerStates()) && EnemyStates() == old(EnemyStates())
        && playerScores == old(playerScores) && ThrottleState() == old(ThrottleState()) && swingEchoes == old(swingEchoes)
      ensures playerId in players ==>
        var p := old(PlayerStates())[playerId];
        var pos := Point(p.x, p.y);
        && PlayerStates() == Swept(old(PlayerStates())[playerId := Swung(p, now)], now)
        && ThrottleState() == old(ThrottleState()).(lastBroadcastTime := now)
        && swingEchoes == old(swingEchoes) + [now + SWING_ECHO_DELAY]
        && playerScores == Credited(old(playerScores), playerId, |Killed(old(EnemyStates()), pos, p.facing)|)
        && SwingResolved(old(EnemyStates()), pos, p.facing, EnemyStates(), CurrentMap())
    {
      if playerId !in players {
        return;
      }
      var player := players[playerId];
      ghost var p := PlayerStates()[playerId];
      ghost var swung := old(PlayerStates())[playerId := Swung(p, now)];
      ghost var es := EnemyStates();
      BeginSwing(playerId, now);
      SweptKeepsPlace(swung, now, playerId);
      SweptClearsExactlyExpired(swung, now, playerId);
      assert PlayerStates()[playerId] == player.State();
      assert EnemyStates() == es;
      FinishSwing(player, Point(p.x, p.y), p.facing, now);
    }

    /**
     * The end of `handleSwordSwing`: the swing is resolved; a hit is
     * followed by a fresh wave when no enemy is left and, either way, by a
     * priority broadcast.
     */
    method FinishSwing(player: Player, ghost pos: Point, ghost f: Facing, now: int)
      requires MapReady() && PlayersValid() && EnemiesValid() && player.id in players && pos == Point(player.x, player.y) && f == player.facing
      modifies this`enemies, this`playerScores, enemies.Values, players.Values
      modifies this`lastBroadcastTime, this`pendingBroadcast, this`pendingDue
      ensures PlayersValid() && EnemiesValid()
      ensures playerScores == Credited(old(playerScores), player.id, |Killed(old(EnemyStates()), pos, f)|)
      ensures SwingResolved(old(EnemyStates()), pos, f, EnemyStates(), CurrentMap())
      ensures if |Struck(old(EnemyStates()), pos, f)| > 0
              then PlayerStates() == Swept(old(PlayerStates()), now) && ThrottleState() == old(ThrottleState()).(lastBroadcastTime := now)
              else PlayerStates() == old(PlayerStates()) && ThrottleState() == old(ThrottleState())
      ensures unchanged(this`swingEchoes)
    {
      var hit := ResolveSwing(player, pos, f);
      BroadcastOnHit(hit, now);
    }

    /** The priority broadcast that follows a swing that hit. */
    method BroadcastOnHit(hit: bool, now: int)
      requires Distinct(players)
      modifies this`lastBroadcastTime, this`pendingBroadcast, this`pendingDue, players.Values
      ensures if hit
              then PlayerStates() == Swept(old(PlayerStates()), now) && ThrottleState() == old(ThrottleState()).(lastBroadcastTime := now)
              else PlayerStates() == old(PlayerStates()) && ThrottleState() == old(ThrottleState())
      ensures unchanged(mapManager) && unchanged(enemies.Values)
      ensures unchanged(this`players, this`enemies, this`playerScores, this`swingEchoes)
    {
      if hit {
        Broadcast(true, now);
      }
    }

    /** The collision check of `handleSwordSwing`: a hit with no enemy left brings a fresh wave. */
    method ResolveSwing(player: Player, ghost pos: Point, ghost f: Facing) returns (hit: bool)
      requires MapReady() && PlayersValid() && EnemiesValid() && player.id in players && pos == Point(player.x, player.y) && f == player.facing
      modifies this`enemies, this`playerScores, enemies.Values
      ensures PlayersValid() && EnemiesValid()
      ensures hit <==> |Struck(old(EnemyStates()), pos, f)| > 0
      ensures playerScores == Credited(old(playerScores), player.id, |Killed(old(EnemyStates()), pos, f)|)
      ensures SwingResolved(old(EnemyStates()), pos, f, EnemyStates(), CurrentMap())
      ensures unchanged(mapManager) && unchanged(players.Values)
      ensures unchanged(this`players, this`swingEchoes, this`lastBroadcastTime, this`pendingBroadcast, this`pendingDue)
    {
      ghost var es := EnemyStates();
      var swordCollisions := CheckSwordCollisions(player);
      CreditedKeeps(old(playerScores), player.id, |Killed(es, pos, f)|);
      hit := swordCollisions > 0;
      if hit && |enemies| == 0 {
        SpawnEnemies();
      }
    }

    /** The start of `handleSwordSwing`: the swing starts, a priority broadcast goes out and another is queued for 50 ms later. */
    method BeginSwing(id: string, now: int)
      requires id in players && Distinct(players)
      modifies players.Values, this`swingEchoes, this`lastBroadcastTime, this`pendingBroadcast, this`pendingDue
      ensures PlayerStates() == Swept(old(PlayerStates())[id := Swung(old(PlayerStates())[id], now)], now)
      ensures ThrottleState() == old(ThrottleState()).(lastBroadcastTime := now)
      ensures swingEchoes == old(swingEchoes) + [now + SWING_ECHO_DELAY]
      ensures players == old(players) && enemies == old(enemies) && playerScores == old(playerScores)
      ensures unchanged(mapManager) && unchanged(enemies.Values)
    {
      StartSwing(id, now);
      Broadcast(true, now);
      swingEchoes := swingEchoes + [now + SWING_ECHO_DELAY];
    }

    /** `player.swingSword()` on the player under `id`: no other player changes. */
    method StartSwing(id: string, now: int)
      requires id in players && Distinct(players)
      modifies players[id]
      ensures players == old(players)
      ensures PlayerStates() == old(PlayerStates())[id := Swung(old(PlayerStates())[id], now)]
      ensures unchanged(mapManager) && unchanged(enemies.Values)
      ensures unchanged(this`players, this`enemies, this`playerScores, this`lastBroadcastTime, this`pendingBroadcast, this`pendingDue)
    {
      players[id].SwingSword(now);
    }

    /** `handlePlayerDisconnect(playerId)` at time `now`: the player and its score go, then a routine broadcast. */
    method HandlePlayerDisconnect(playerId: string, now: int)
      requires PlayersValid()
      modifies this`players, this`playerScores, this`lastBroadcastTime, this`pendingBroadcast, this`pendingDue, players.Values
      ensures PlayersValid()
      ensures players == old(players) - {playerId} && playerScores == old(playerScores) - {playerId}
      ensures ThrottleState() == AfterRequest(old(ThrottleState()), false, now)
      ensures PlayerStates() == AfterBroadcast(old(PlayerStates()) - {playerId}, old(ThrottleState()), false, now)
    {
      RemovePlayer(playerId);
      Broadcast(false, now);
    }

    /** `players.delete(playerId)` and `playerScores.delete(playerId)`. */
    method RemovePlayer(id: string)
      requires PlayersValid()
      modifies this`players, this`playerScores
      ensures PlayersValid()
      ensures players == old(players) - {id} && playerScores == old(playerScores) - {id}
      ensures PlayerStates() == old(PlayerStates()) - {id}
    {
      players := players - {id};
      playerScores := playerScores - {id};
    }

    // -------------------------------------------------------------------
    // Map switching and connections

    /**
     * `handleMapSwitch(mapId)` at time `now`. An unknown id changes nothing.
     * A known one becomes the current map; every player is put at a spawn
     * point drawn from it, with full health; then a fresh wave and a
     * priority broadcast follow. A map without player spawn points cuts the
     * switch short at the first player (the source fails there reading the
     * missing point), leaving the players and enemies as they were.
     */
    method HandleMapSwitch(mapId: string, now: int)
      returns (outcome: SwitchOutcome, ghost spots: map<string, Point>, ghost order: seq<string>, ghost picks: seq<int>)
      requires Valid()
      modifies mapManager`currentMapId, this`enemies, players.Values
      modifies if mapId in mapManager.maps then {mapManager.maps[mapId]} else {}
      modifies this`lastBroadcastTime, this`pendingBroadcast, this`pendingDue
      ensures Valid()
      ensures mapManager.maps == old(mapManager.maps)
      ensures outcome == UnknownMap <==> mapId !in mapManager.maps
      ensures outcome == UnknownMap ==> mapManager.currentMapId == old(mapManager.currentMapId)
      ensures outcome != UnknownMap ==> mapManager.currentMapId == mapId
      ensures outcome == Aborted <==> mapId in mapManager.maps && |old(players)| > 0 && |mapManager.maps[mapId].playerSpawnPoints| == 0
      ensures outcome != Switched ==>
        PlayerStates() == old(PlayerStates()) && EnemyStates() == old(EnemyStates()) && ThrottleState() == old(ThrottleState())
      ensures outcome == Switched ==>
        Relocated(old(PlayerStates()), old(mapManager.maps[mapId].usedPlayerSpawns), old(ThrottleState()), spots, order, picks, now)
    {
      ghost var ps, es, ts := PlayerStates(), EnemyStates(), ThrottleState();
      var switched := mapManager.SwitchMap(mapId);
      if !switched {
        return UnknownMap, map[], [], [];
      }
      assert PlayerStates() == ps;
      assert EnemyStates() == es;
      assert ThrottleState() == ts;
      var complete;
      complete, spots, order, picks := RelocateAll(now);
      outcome := if complete then Switched else Aborted;
    }

    /** The part of `handleMapSwitch` after the switch: the players are respawned on the current map, then the round restarts. */
    method RelocateAll(now: int)
      returns (complete: bool, ghost spots: map<string, Point>, ghost order: seq<string>, ghost picks: seq<int>)
      requires Valid()
      modifies players.Values, mapManager.maps[mapManager.currentMapId], this`enemies
      modifies this`lastBroadcastTime, this`pendingBroadcast, this`pendingDue
      ensures Valid()
      ensures unchanged(mapManager)
      ensures complete <==> |players| == 0 || |CurrentMap().playerSpawnPoints| > 0
      ensures !complete ==>
        PlayerStates() == old(PlayerStates()) && EnemyStates() == old(EnemyStates()) && ThrottleState() == old(ThrottleState())
      ensures complete ==>
        Relocated(old(PlayerStates()), old(CurrentMap().usedPlayerSpawns), old(ThrottleState()), spots, order, picks, now)
    {
      complete, spots, order, picks := RespawnAll(mapManager.maps[mapManager.currentMapId]);
      if complete {
        Restart(now);
      }
    }

    /** The end of `handleMapSwitch`: a fresh wave on the current map, then a priority broadcast. */
    method Restart(now: int)
      requires MapReady() && PlayersValid()
      modifies this`enemies, players.Values, this`lastBroadcastTime, this`pendingBroadcast, this`pendingDue
      ensures PlayersValid() && EnemiesValid()
      ensures IsWave(EnemyStates(), CurrentMap())
      ensures PlayerStates() == Swept(old(PlayerStates()), now)
      ensures ThrottleState() == old(ThrottleState()).(lastBroadcastTime := now)
      ensures unchanged(mapManager) && unchanged(this`players, this`playerScores)
    {
      SpawnEnemies();
      Broadcast(true, now);
    }

    /** The respawn loop of `handleMapSwitch`: each player in turn draws a spawn point from the current map. */
    method RespawnAll(currentMap: GameMap)
      returns (complete: bool, ghost spots: map<string, Point>, ghost order: seq<string>, ghost picks: seq<int>)
      requires mapManager.Valid() && PlayersValid() && currentMap == CurrentMap()
      modifies players.Values, currentMap`usedPlayerSpawns
      ensures mapManager.Valid() && PlayersValid()
      ensures complete <==> |players| == 0 || |currentMap.playerSpawnPoints| > 0
      ensures !complete ==> PlayerStates() == old(PlayerStates())
      ensures complete ==>
        && spots.Keys == players.Keys
        && (forall k :: k in spots ==> spots[k] in currentMap.playerSpawnPoints)
        && RotationOf(spots, currentMap.playerSpawnPoints, order, picks, old(currentMap.usedPlayerSpawns), currentMap.usedPlayerSpawns)
        && PlayerStates() == RespawnedAt(old(PlayerStates()), spots)
      ensures unchanged(this`players, this`enemies, this`playerScores, this`lastBroadcastTime, this`pendingBroadcast, this`pendingDue)
      ensures unchanged(mapManager) && unchanged(enemies.Values)
    {
      assert PlayerStates() == StatesOf(players);
      complete, spots, order, picks := RespawnEach(players, currentMap);
      assert PlayerStates() == StatesOf(players);
    }

    /** `currentMap.getPlayerSpawnPoint()` on a registered map: only that map's record of used points changes. */
    method DrawPlayerSpawn(m: GameMap) returns (sp: Option<Point>, ghost k: int)
      modifies m`usedPlayerSpawns
      ensures sp.None? <==> |m.playerSpawnPoints| == 0
      ensures sp.Some? ==> sp.value in m.playerSpawnPoints
      ensures sp.Some? ==> 0 <= k < |m.playerSpawnPoints| && sp.value == m.playerSpawnPoints[k]
      ensures sp.Some? ==> PickStep(|m.playerSpawnPoints|, old(m.usedPlayerSpawns), k, m.usedPlayerSpawns)
      ensures PlayerStates() == old(PlayerStates())
      ensures unchanged(this`players, this`enemies, this`playerScores, this`lastBroadcastTime, this`pendingBroadcast, this`pendingDue)
      ensures unchanged(mapManager) && unchanged(players.Values) && unchanged(enemies.Values)
    {
      sp := m.GetPlayerSpawnPoint();
      if sp.Some? {
        k :| PickStep(|m.playerSpawnPoints|, old(m.usedPlayerSpawns), k, m.usedPlayerSpawns) && sp.value == m.playerSpawnPoints[k];
      } else {
        k := 0;
      }
    }

    /**
     * The player-creation part of the connection handler at time `now`: a
     * player named `name` under the fresh id `id` is created at a spawn
     * point drawn from the current map, with score 0, and a routine
     * broadcast follows. A map without player spawn points makes the
     * handler fail before anything is registered.
     */
    method HandleConnect(id: string, name: string, now: int) returns (joined: Option<Point>)
      requires Valid()
      modifies this`players, this`playerScores, players.Values, mapManager.maps[mapManager.currentMapId]
      modifies this`lastBroadcastTime, this`pendingBroadcast, this`pendingDue
      ensures Valid()
      ensures joined.None? <==> |CurrentMap().playerSpawnPoints| == 0
      ensures joined.None? ==>
        players == old(players) && playerScores == old(playerScores) && PlayerStates() == old(PlayerStates()) && ThrottleState() == old(ThrottleState())
      ensures joined.Some? ==>
        && joined.value in CurrentMap().playerSpawnPoints
        && (exists k :: PickStep(|CurrentMap().playerSpawnPoints|, old(CurrentMap().usedPlayerSpawns), k, CurrentMap().usedPlayerSpawns)
                     && joined.value == CurrentMap().playerSpawnPoints[k])
        && players.Keys == old(players).Keys + {id} && fresh(players[id]) && players[id].name == name
        && playerScores == old(playerScores)[id := 0]
        && ThrottleState() == AfterRequest(old(ThrottleState()), false, now)
        && PlayerStates() == AfterBroadcast(old(PlayerStates())[id := Joined(joined.value)], old(ThrottleState()), false, now)
    {
      var currentMap := mapManager.maps[mapManager.currentMapId];
      ghost var k;
      joined, k := DrawPlayerSpawn(currentMap);
      if joined.None? {
        return;
      }
      Admit(id, name, joined.value, now);
    }

    /** The tail of the connection handler: the new player is registered at `sp` with score 0, then a routine broadcast. */
    method Admit(id: string, name: string, sp: Point, now: int)
      requires PlayersValid()
      modifies this`players, this`playerScores, players.Values
      modifies this`lastBroadcastTime, this`pendingBroadcast, this`pendingDue
      ensures PlayersValid()
      ensures players.Keys == old(players).Keys + {id} && fresh(players[id]) && players[id].name == name
      ensures playerScores == old(playerScores)[id := 0]
      ensures ThrottleState() == AfterRequest(old(ThrottleState()), false, now)
      ensures PlayerStates() == AfterBroadcast(old(PlayerStates())[id := Joined(sp)], old(ThrottleState()), false, now)
      ensures unchanged(mapManager) && unchanged(enemies.Values) && unchanged(this`enemies)
    {
      AddPlayer(id, name, sp);
      Broadcast(false, now);
    }

    /** `players.set(id, new Player(id, name, x, y))` and `playerScores.set(id, 0)`. */
    method AddPlayer(id: string, name: string, sp: Point)
      requires PlayersValid()
      modifies this`players, this`playerScores
      ensures PlayersValid()
      ensures players.Keys == old(players).Keys + {id} && fresh(players[id]) && players[id].name == name
      ensures playerScores == old(playerScores)[id := 0]
      ensures PlayerStates() == old(PlayerStates())[id := Joined(sp)]
      ensures players == old(players)[id := players[id]]
      ensures unchanged(old(players).Values)
      ensures unchanged(this`enemies, this`lastBroadcastTime, this`pendingBroadcast, this`pendingDue)
      ensures unchanged(mapManager) && unchanged(enemies.Values)
    {
      var player := new Player(id, name, Some(sp.x), Some(sp.y));
      assert player.State() == Joined(sp);
      ghost var ps := PlayerStates();
      assert ps == old(PlayerStates());
      players := players[id := player];
      assert PlayerStates() == ps[id := player.State()];
      playerScores := playerScores[id := 0];
    }
  }
}
