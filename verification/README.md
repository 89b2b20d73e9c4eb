# 2DMMO game server core, in Dafny

A model of the server-side simulation of a small 2D arena game: players walk
over a tiled map, swing swords at enemies, and see the world through
throttled state broadcasts. The model covers:

- the collision system shared by client and server (`shapes.dfy`,
  `collision_system.dfy`): boundary, closest-point tile, feet and obstacle
  tests, the combined map check and its diagnostic variant;
- the game map (`maps.dfy`): defaults applied by the constructor, player
  spawn rotation, enemy spawn draws, boundary clamping, and the coarser
  tile/obstacle checks the server validates moves with;
- players and enemies (`entities.dfy`) as objects updated in place;
- the sword rules (`combat.dfy`): sword tip, reach and arc tests, damage,
  removal and kill credit, as functions on the enemy table;
- the broadcast throttle (`throttle.dfy`): priority bypass, one deferred
  flush at most;
- the map registry (`map_manager.dfy`): custom maps first, built-ins only
  for free ids, overwrite by id, insertion-ordered listing, switching;
- the game server (`game_server.dfy`): spawning waves, resolving swings,
  validating moves, broadcasting with the sweep of expired swings,
  disconnects, map switches and connections.

Clock readings are `now` parameters. Random draws are nondeterministic
choices (`:|`), so every contract holds for every outcome of the draw. The
two timers (the deferred flush and the 50 ms re-broadcast after a swing) are
explicit `FirePendingBroadcast` and `FireSwingEcho` methods. Coordinates are
integers, and every `Math.sqrt(d) < r` test becomes `r > 0 && d < r*r`.

Each mutable object of the program (`GameMap`, `MapManager`, `Player`,
`Enemy`, `GameServer`) is a class. Its methods state the new state through a
value view (`State()`, `PlayerStates()`, `EnemyStates()`, `ThrottleState()`,
`Specs()`). That view is tied to reference functions (`AfterSwing`,
`Swept`, `RespawnedAt`, `AfterRequest`, `Registry`, `Wave`), and the
lemmas below are proved about those functions.

## Model

| member | source | states |
|---|---|---|
| Shapes.OrInt | classes/GameServer.js:270-271 | `v \|\| d` on numbers: a missing value or 0 gives the default, any other value is kept as it is, and a non-zero default never yields 0 |
| Shapes.OrStr | classes/Map.js:4-5 | `s \|\| d` on strings: a missing or empty string gives the default, any other string is kept as it is, and a non-empty default never yields "" |
| Shapes.FloorDiv | classes/CollisionSystem.js:86-89 | `Math.floor(a / s)` is the unique q with q*s <= a < q*s + s |
| Shapes.CeilDiv | classes/Map.js:43-44 | `Math.ceil(a / s)` is the unique q with q*s - s < a <= q*s, so q whole tiles cover a |
| CollisionSystem.NewSystem | classes/CollisionSystem.js:5-10 | a missing or zero entry takes its default (10, 10, 6), a non-zero entry is kept, no entry ends up 0, and feet mode is on only when configured true |
| CollisionSystem.CheckBoundaryCollision | classes/CollisionSystem.js:13-15 | no boundary collision exactly when the circle's bounding box lies inside [0,w) x [0,h) |
| CollisionSystem.ClosestPointOnTile | classes/CollisionSystem.js:19-26 | the point lies on the closed tile, and is the centre itself when the centre is on the tile |
| CollisionSystem.CheckTileCollision | classes/CollisionSystem.js:18-35 | a hit needs a positive radius and the centre strictly within the radius of the tile on each axis |
| CollisionSystem.CheckFeetCollision | classes/CollisionSystem.js:38-43 | the tile test around the feet point (x, y + feetOffset) with the feet radius: a hit needs a positive feet radius and the tile within it on each axis |
| Shapes.BoxOverlaps | classes/CollisionSystem.js:46-51 | for a positive radius and a rectangle of positive area, the test holds exactly when the circle's box and the rectangle have an intersection of positive width and height |
| CollisionSystem.ClosestPointIsNearest | classes/CollisionSystem.js:24-26 | the clamped point is the point of the tile nearest to the centre |
| CollisionSystem.TileCollisionIsExactOverlap | classes/CollisionSystem.js:18-35 | the closest-point test holds iff some point of the closed tile lies strictly inside the circle |
| CollisionSystem.CenterOnTileCollides | classes/CollisionSystem.js:18-35 | a circle of positive radius centred on the tile always collides |
| CollisionSystem.TouchingTileDoesNotCollide | classes/CollisionSystem.js:18-35 | a circle that just touches the tile's edge does not collide |
| CollisionSystem.OneUnitCloserCollides | classes/CollisionSystem.js:18-35 | the same circle moved one unit closer does collide |
| CollisionSystem.FeetCollisionIsExactOverlapAtFeet | classes/CollisionSystem.js:38-43 | feet collision is exact overlap of the circle at (x, y + feetOffset) with radius feetRadius |
| CollisionSystem.ObstacleTestIsLooser | classes/CollisionSystem.js:46-51 | every obstacle the exact circle test would hit is also hit by the box test |
| CollisionSystem.ObstacleTestIsStrictlyLooser | classes/CollisionSystem.js:46-51 | a circle near a rectangle's corner overlaps it under the box test but not exactly |
| CollisionSystem.TouchingObstacleDoesNotCollide | classes/CollisionSystem.js:46-51 | boxes that only share an edge do not collide |
| CollisionSystem.BoundaryDominates | classes/CollisionSystem.js:75-78 | when the boundary test fires, the map check reports a collision whatever the tiles and obstacles |
| CollisionSystem.ScanIsExhaustive | classes/CollisionSystem.js:85-108 | every cell the exact test would block lies in the scanned floor-divided range, so the scan misses no blocking cell |
| CollisionSystem.CheckMapCollision | classes/CollisionSystem.js:54-119 | false for a missing map; otherwise true iff the probe circle leaves the boundary, or an in-grid solid cell in range passes the exact test, or an obstacle meets the box at the nominal centre and radius |
| CollisionSystem.TileHitsMembers | classes/CollisionSystem.js:170-184 | `collidingTiles` holds exactly the scanned cells that block, each with its type name |
| CollisionSystem.TileHitsRowMajor | classes/CollisionSystem.js:170-184 | `collidingTiles` is in row-major order without repeats |
| CollisionSystem.ObstacleHitsExact | classes/CollisionSystem.js:188-193 | `collidingObstacles` holds exactly the indices of the obstacles the box test hits, in increasing order |
| CollisionSystem.DebugListsMatchCheck | classes/CollisionSystem.js:155-193 | each diagnostic list is non-empty exactly when the corresponding part of the map check blocks |
| CollisionSystem.CollectTileHits | classes/CollisionSystem.js:161-185 | the nested push loop builds the row-major list of blocking cells |
| CollisionSystem.CollectObstacleHits | classes/CollisionSystem.js:188-193 | the obstacle push loop builds the ordered list of hit indices |
| CollisionSystem.GetCollisionDebugInfo | classes/CollisionSystem.js:122-196 | reports the probe point and radius, the boundary flag and both lists; its `collides` equals the map check on the same arguments |
| CollisionSystem.OpenMapScenario | classes/CollisionSystem.js:54-78 | on an empty 100 x 100 map a radius-5 circle is clear at (50,50) and (92,50) and blocked at (96,50) |
| Maps.DeriveBounds | classes/Map.js:31-36 | a missing or zero boundary defaults to 11, 11, width-21, height-21 respectively, a non-zero one is kept, and the minima are never 0 |
| Maps.TileSizeFrom | classes/Map.js:42 | a missing or zero tile size becomes 32, any other is kept |
| Maps.GenerateDefaultTileMap | classes/Map.js:247-276 | `tilesY` rows of `tilesX` cells, each grass, stone or dirt, or water far from the centre |
| Maps.GeneratedCellsHaveDefaultTypes | classes/Map.js:253-269 | every generated cell names a default tile type, and exactly stone and water are solid |
| Maps.PoolDraws | classes/Map.js:147-151 | a draw of `count` takes min(count, pool size) pool points, never more than either |
| Maps.AsWrittenDrawsClosedForm | classes/Map.js:147-151 | the as-written loop makes min(count - i, ceil((available - i)/2)) passes |
| Maps.AsWrittenTakesAtMostHalf | classes/Map.js:147-151 | the as-written loop draws min(count, ceil(P/2)) pool points, fewer than intended whenever count and P both exceed ceil(P/2) |
| Maps.AsWrittenDefaultCount | classes/Map.js:143-151 | with the default count 5, a 5-point pool yields 3 pool spawns instead of 5, and a 2-point pool 1 instead of 2 |
| Maps.SpliceStep | classes/Map.js:148-150 | moving the picked entry from the copy to the result keeps every pool point accounted for once |
| Maps.FreeIndexExists | classes/Map.js:121-129 | after the reset, a non-empty pool always has an unused index, so the fallback branch is never taken |
| Maps.GameMap.constructor | classes/Map.js:3-112 | each field takes the given value or its default; tile counts are rounded up so the tiles cover the map; a missing grid is generated; no spawn is in use |
| Maps.GameMap.GetPlayerSpawnPoint | classes/Map.js:115-140 | an empty pool gives nothing; otherwise a pool point whose index was unused after the reset is returned and marked used, and used indices stay in range |
| Maps.GameMap.GetEnemySpawnPoints | classes/Map.js:143-162 | max(0, count) points: the first min(count, pool size) drawn without replacement from the pool, the rest inside the boundaries |
| Maps.GameMap.GetEnemySpawnPointsAsWritten | classes/Map.js:143-162 | max(0, count) points of which only the as-written number of draws come from the pool |
| Maps.GameMap.DrawPoolAsWritten | classes/Map.js:147-151 | the as-written first loop draws `AsWrittenDraws` points without replacement |
| Maps.GameMap.FillRandom | classes/Map.js:154-159 | tops up to `count` with points inside the boundaries and keeps the drawn prefix |
| Maps.GameMap.CheckObstacleCollision | classes/Map.js:181-191 | true iff some obstacle meets the circle's box (default radius 10) |
| Maps.GameMap.CheckTileCollision | classes/Map.js:194-229 | true outside [0,width) x [0,height), false for an empty grid, otherwise true iff a solid in-grid cell lies under the box, with no distance test |
| Maps.GameMap.CheckCollision | classes/Map.js:232-244 | the tile check or the obstacle check |
| Maps.GameMap.IsValidPosition | classes/Map.js:165-170 | a valid position is one clamping leaves where it is; with non-empty boundaries, exactly those positions are valid |
| Maps.GameMap.ClampPosition | classes/Map.js:173-178 | each coordinate is kept or moved onto one of its two boundary edges, and a coordinate already within its range is kept |
| Maps.GameMap.GetTileTypeAt | classes/Map.js:279-287 | "grass" for any point off the grid; on a valid map, the grid cell under a point inside the map |
| Maps.GameMap.IsWalkable | classes/Map.js:290-293 | off the grid, walkable unless the map's grass type says `walkable: false`; with the default tile types, walkable exactly where the tile is neither stone nor water |
| Maps.ClampIsValid | classes/Map.js:173-178 | with non-empty boundaries a clamped position is valid |
| Maps.ClampFixesValid | classes/Map.js:165-178 | a valid position is left where it is, and clamping is idempotent |
| Maps.ClampIsNearest | classes/Map.js:173-178 | no valid position is closer on either axis than the clamped one |
| Maps.NotWalkableBlocks | classes/Map.js:290-293 | a point inside the map on a cell marked not walkable is blocked for every non-negative radius |
| Maps.MissingWalkableIsSolidButWalkable | classes/Map.js:290-293 | a type without `walkable` counts as walkable for `isWalkable` yet solid for the tile check |
| Maps.PickRunDistinct | classes/Map.js:115-140 | until the pool is used up, successive spawn picks are distinct, avoid used indices and are added to them |
| Maps.PickRunExtend | classes/Map.js:115-140 | a run of spawn picks followed by one more pick is a run of picks |
| Maps.PickStepsInRange | classes/Map.js:115-140 | every picked index lies in the pool |
| Maps.FreshRoundUsesEveryPoint | classes/Map.js:115-140 | from a fresh map, n calls hand out each of n spawn points exactly once |
| Entities.MoveTargetWithin | classes/Player.js:23-24 | on a canvas at least 32 wide a move lands in [11, extent-21] |
| Entities.MoveTargetKeepsInside | classes/Player.js:23-24 | a position already inside is kept, and a narrower canvas forces 11 |
| Entities.FacingFollowsSigns | classes/Player.js:27-30 | horizontal movement wins, then vertical; no movement keeps the facing; only the signs matter |
| Entities.AfterDamageProperties | classes/Player.js:46-49 | health never goes negative, never rises for d >= 0, and a positive health drops to 0 iff d >= health |
| Entities.AfterDamageAdds | classes/Enemy.js:14 | two blows take off what one blow of their sum does |
| Entities.SwingExpiresAfter800 | classes/GameServer.js:190 | a swing begun at t is swept exactly once now > t + 800 |
| Entities.Cleared | classes/Player.js:51-55 | the swing fields are reset and nothing else changes |
| Entities.SweepOne | classes/GameServer.js:189-193 | after the sweep no swing is expired; the player is either untouched or cleared |
| Entities.SweepIdempotent | classes/GameServer.js:189-193 | sweeping twice at the same time is sweeping once |
| Entities.Player.constructor | classes/Player.js:3-15 | the player is at the given point (default 200, 200) with health 20 of 20, facing down, not swinging |
| Entities.Player.Move | classes/Player.js:17-36 | position clamped into the canvas, facing by the rule, move time stamped; the result is true iff position or facing changed |
| Entities.Player.SwingSword | classes/Player.js:38-44 | a 300 ms swing starts at now and nothing else changes |
| Entities.Player.TakeDamage | classes/Player.js:46-49 | only health changes, to max(0, health - d); the result says whether health is 0 or less |
| Entities.Player.ClearSwing | classes/Player.js:51-55 | the swing fields are reset and nothing else changes |
| Entities.StandingStillIsNoChange | classes/Player.js:17-36 | a zero move by a player inside the canvas changes neither position nor facing |
| Entities.Enemy.constructor | classes/Enemy.js:3-11 | the enemy is at the given point with health 20 of 20 |
| Entities.Enemy.TakeDamage | classes/Enemy.js:13-21 | only health changes, to max(0, health - d); the result agrees with `isDead` afterwards |
| Combat.ReachInFacingFrame | classes/GameServer.js:112-127 | the reach test, in the attacker's frame, measures from a tip 20 units ahead |
| Combat.ReachMeansAhead | classes/GameServer.js:112-141 | anything in reach is strictly ahead, less than 40 units so, and less than 20 off the line, so nothing behind is ever hit |
| Combat.HitsInFacingFrame | classes/GameServer.js:125-141 | a hit is less than 10 off the facing line and within 20 of the tip |
| Combat.ArcAndReachBothMatter | classes/GameServer.js:133-141 | each of the two tests rejects a target the other accepts |
| Combat.SwingScenario | classes/GameServer.js:107-141 | facing down from (100,100): (100,115) and (109,110) are hit; (110,110), (115,100) and (108,100) are not |
| Combat.HitsIsTranslationInvariant | classes/GameServer.js:112-141 | whether a target is hit depends only on its offset from the attacker |
| Combat.AfterSwingKeys | classes/GameServer.js:141-154 | exactly the killed enemies leave the table; every kill was a hit |
| Combat.AfterSwingSurvivors | classes/GameServer.js:141-154 | a hit survivor lost exactly 10 health and still has some; others are unchanged; positions never change |
| Combat.FreshEnemiesNeedTwoHits | classes/GameServer.js:141-146 | full-health enemies survive one swing, and a second swing from the same spot kills every one hit before |
| Broadcasting.PrioritySendsNow | classes/GameServer.js:163-167 | a priority broadcast always flushes at once and stamps the time |
| Broadcasting.RoutineRule | classes/GameServer.js:169-181 | a routine request flushes iff 16 ms have passed; otherwise it schedules a timer only when none is pending, due 16 ms after the last flush |
| Broadcasting.AtMostOneTimer | classes/GameServer.js:170-178 | no request clears a pending timer or schedules a second one |
| Broadcasting.BurstCoalesces | classes/GameServer.js:169-179 | a burst of routine requests inside the interval sends nothing at once and leaves exactly one timer |
| Broadcasting.ThrottleScenario | classes/GameServer.js:160-182 | requests 5 and 10 ms after a flush at 100 leave one timer due at 116, which then flushes |
| Broadcasting.QuietBurstScenario | classes/GameServer.js:169-181 | after a quiet spell two requests 5 ms apart give one immediate flush and one timer |
| MapManagement.RegisterOneMore | classes/MapManager.js:147-151 | registering overwrites the id's entry, and appends the id to the order only if it is new |
| MapManagement.RegisterNextFile | classes/MapManager.js:126-140 | each loaded file registers its description after the earlier ones |
| MapManagement.AddIfAbsentKeys | classes/MapManager.js:115-117 | a conditional registration leaves its id registered and adds no other |
| MapManagement.LoadedStepByStep | classes/MapManager.js:114-117 | loading the built-ins is the three conditional registrations in order |
| MapManagement.OrderMatchesRegistry | classes/MapManager.js:147-151 | the listing order holds every registered id exactly once and nothing else |
| MapManagement.BuiltInsAlwaysPresent | classes/MapManager.js:114-117 | arena, forest and duel are always registered, so an initial map always exists |
| MapManagement.CustomTakesPriority | classes/MapManager.js:114-117 | an id a custom file took keeps that file's map; a built-in fills only a free id |
| MapManagement.InitialMapChoice | classes/MapManager.js:15-20 | without custom files the arena is current; a registered `custom_map` is always current |
| MapManagement.FirstRegisteredIsFirst | classes/MapManager.js:18-20 | the first registered id heads the key order for good |
| MapManagement.LoadedTable | classes/MapManager.js:15-20 | after loading, the initial choice is `custom_map` if present, otherwise the first key, which is registered |
| MapManagement.MapManager.constructor | classes/MapManager.js:5-21 | the registry holds the custom maps, then the free built-ins, in that order, and the current map is the initial choice |
| MapManagement.MapManager.ChooseInitialMap | classes/MapManager.js:15-20 | picks `custom_map` when registered, otherwise the first key |
| MapManagement.MapManager.LoadCustomMaps | classes/MapManager.js:121-144 | registers each parsed file in turn |
| MapManagement.MapManager.LoadDefaultMaps | classes/MapManager.js:24-118 | registers each built-in whose id is still free |
| MapManagement.MapManager.RegisterIfAbsent | classes/MapManager.js:115 | registers the description only when its id is free |
| MapManagement.MapManager.RegisterMap | classes/MapManager.js:147-151 | a fresh map is filed under its id, overwriting any earlier one; all other entries are unchanged |
| MapManagement.MapManager.File | classes/MapManager.js:149 | `maps.set(id, map)`: the entry is replaced and a new id goes last in the order |
| MapManagement.MapManager.LoadMapFromFile | classes/MapManager.js:154-164 | a failed read changes nothing and returns no id; a parsed file is registered under its id, which joins the listing order as `Map.set` places it, and its `id` is returned |
| MapManagement.MapManager.SwitchMap | classes/MapManager.js:167-175 | succeeds iff the id is registered, and only then does it become current |
| MapManagement.MapManager.GetAllMaps | classes/MapManager.js:188-199 | one summary per registered map, in insertion order, without repeats |
| MapManagement.MapManager.GetRandomMap | classes/MapManager.js:202-206 | returns some registered map |
| MapManagement.MapManager.GetMap | classes/MapManager.js:183-185 | a map is found exactly for a registered id; in a valid registry it is the one filed under that id |
| MapManagement.MapManager.GetCurrentMap | classes/MapManager.js:178-180 | a registered map; in a valid registry the one whose id is the current id |
| MapManagement.MapManager.HasMap | classes/MapManager.js:209-211 | agrees with `getMap`, and in a valid registry with the listing order |
| Server.EnemyIdInjective | classes/GameServer.js:92 | distinct indices give distinct enemy ids |
| Server.WaveIds | classes/GameServer.js:91-95 | the ids `enemy_0` ... `enemy_{n-1}` are n distinct ids |
| Server.WaveKeys | classes/GameServer.js:91-95 | a wave holds exactly the ids `enemy_0` ... `enemy_{n-1}` |
| Server.WaveValues | classes/GameServer.js:91-95 | `enemy_i` stands at spawn point i with full health |
| Server.WaveGrows | classes/GameServer.js:91-95 | each pass adds a new id and changes no earlier enemy |
| Server.WaveIsAlive | classes/GameServer.js:91-95 | every enemy of a fresh wave is alive |
| Server.WaveIsFull | classes/GameServer.js:86-95 | a fresh wave is exactly `enemy_0` ... `enemy_4`, all at health 20 of 20 |
| Server.Swept | classes/GameServer.js:188-194 | the sweep keeps the set of players |
| Server.SweptKeepsPlace | classes/GameServer.js:188-194 | the sweep never moves a player or turns it round |
| Server.SweptClearsExactlyExpired | classes/GameServer.js:188-194 | exactly the expired swings are cleared, none stays expired, and sweeping again changes nothing |
| Server.SwingAdvances | classes/GameServer.js:124-155 | dealing with one more enemy leaves it untouched, damaged or removed, and raises the hit and kill counts exactly then |
| Server.SwingEnds | classes/GameServer.js:124-155 | before the loop the table is as it was; after it, it is the swing's result |
| Server.CreditedStep | classes/GameServer.js:149-150 | crediting kills one at a time adds them up |
| Server.CreditedKeeps | classes/GameServer.js:149-150 | crediting a player with a score adds no entry and keeps scores non-negative |
| Server.SwingKeepsAlive | classes/GameServer.js:141-151 | after a swing every remaining enemy is alive |
| Server.RespawnSteps | classes/GameServer.js:352-357 | respawning nobody changes nothing; respawning one more player changes only that player |
| Server.SweepEach | classes/GameServer.js:188-194 | the sweep loop leaves every player as the sweep function says |
| Server.SweepPlayer | classes/GameServer.js:189-193 | one player's swing is cleared iff expired |
| Server.RespawnEach | classes/GameServer.js:352-357 | every player is put at a spawn point from the map with full health, the points being the map's rotation of spawn picks in player order; a map without spawn points stops it with nobody moved |
| Server.RespawnTurn | classes/GameServer.js:353-356 | one pass: draw a point as one rotation pick (index k of the pool, used set advanced), and if there is one put the player there |
| Server.RespawnNext | classes/GameServer.js:353-356 | one pass of the loop keeps its progress: the player is respawned at the next pick of the rotation, or, for an empty pool, no player changes |
| Server.RespawnPlayer | classes/GameServer.js:354-356 | the player is put at the point with full health, and no other player changes |
| Server.GameServer.constructor | classes/GameServer.js:7-25 | no players, enemies or scores, throttle at zero, and the registry, its listing order and the current id built as the map manager builds them |
| Server.GameServer.Initialize | classes/GameServer.js:27-35 | the first wave is spawned on the current map by the as-written enemy draw |
| Server.GameServer.SpawnEnemies | classes/GameServer.js:86-97 | the enemy table is replaced by a fresh wave of 5 at full health, placed by the as-written enemy draw on the current map (its pool points, then random points in the boundaries); nothing else changes |
| Server.GameServer.AddEnemy | classes/GameServer.js:94 | a new full-health enemy is filed under its id |
| Server.GameServer.CheckSwordCollisions | classes/GameServer.js:107-158 | the table becomes the swing's result; the count is the number hit; the attacker is credited once per kill; the player does not move |
| Server.GameServer.SwingAll | classes/GameServer.js:124-155 | the loop over the enemies computes the swing's result, hit count and credits |
| Server.GameServer.SwingAt | classes/GameServer.js:124-155 | one pass takes the swing one enemy further |
| Server.GameServer.StrikeOne | classes/GameServer.js:141-154 | the enemy is damaged if hit, and removed and credited if that kills it |
| Server.GameServer.RemoveKilled | classes/GameServer.js:146-150 | the enemy leaves the table and the attacker gains one kill |
| Server.GameServer.DamageEnemy | classes/GameServer.js:142 | only that enemy loses 10 health |
| Server.GameServer.Broadcast | classes/GameServer.js:160-182 | the throttle moves as the decision says, and a flush sweeps expired swings |
| Server.GameServer.PerformBroadcast | classes/GameServer.js:184-194 | the time is stamped and every expired swing cleared |
| Server.GameServer.FirePendingBroadcast | classes/GameServer.js:173-176 | the deferred flush sends and clears the pending flag |
| Server.GameServer.FireSwingEcho | classes/GameServer.js:316-318 | the 50 ms re-broadcast is a priority flush |
| Server.GameServer.HandlePlayerMove | classes/GameServer.js:265-304 | an unknown id changes nothing; a blocked target changes nothing and asks for a correction iff the client is open and the step is longer than 1; an allowed one moves the player and broadcasts a visible change |
| Server.GameServer.ApplyMove | classes/GameServer.js:299-303 | the move, then a routine broadcast iff position or facing changed |
| Server.GameServer.MovePlayer | classes/GameServer.js:299 | only that player moves |
| Server.GameServer.HandleSwordSwing | classes/GameServer.js:306-337 | an unknown id changes nothing; otherwise the swing starts and flushes, an echo is queued, enemies and scores follow the swing, and a wave (as-written draw) is respawned iff the swing hit and left none |
| Server.GameServer.FinishSwing | classes/GameServer.js:320-336 | the swing is resolved (a hit that clears the table brings an as-written wave), and a priority flush follows iff it hit |
| Server.GameServer.BroadcastOnHit | classes/GameServer.js:323-335 | a priority flush iff the swing hit |
| Server.GameServer.ResolveSwing | classes/GameServer.js:321-331 | reports a hit iff some enemy was struck, and respawns an as-written wave iff a hit left none |
| Server.GameServer.BeginSwing | classes/GameServer.js:310-318 | the swing starts, a priority flush goes out and an echo is queued 50 ms later |
| Server.GameServer.StartSwing | classes/GameServer.js:310 | only that player starts swinging |
| Server.GameServer.HandlePlayerDisconnect | classes/GameServer.js:339-344 | the player and its score are removed, then a routine broadcast |
| Server.GameServer.RemovePlayer | classes/GameServer.js:341-342 | the player and its score are removed and the tables stay consistent |
| Server.GameServer.HandleMapSwitch | classes/GameServer.js:347-369 | an unknown id changes nothing, no map's spawn rotation included (only the switched-to map may change at all); a known one becomes current, every player gets a spawn point of it with full health as that map's rotation of picks from its used set, a fresh as-written wave appears and a priority flush sweeps expired swings; a map without player spawn points, with players connected, aborts with players, enemies and throttle unchanged |
| Server.GameServer.RelocateAll | classes/GameServer.js:350-363 | respawn every player on the current map as a rotation of spawn picks, then restart the round with an as-written wave |
| Server.GameServer.Restart | classes/GameServer.js:359-363 | a fresh as-written wave on the current map, then a priority flush |
| Server.GameServer.RespawnAll | classes/GameServer.js:350-357 | every player gets a spawn point from the current map with full health, the points being the rotation of picks from its used set in player order; nobody moves when it has none |
| Server.GameServer.DrawPlayerSpawn | classes/GameServer.js:390-391 | a spawn point of the current map that is one rotation pick (its index and the used set's update as `getPlayerSpawnPoint` picks), or nothing for an empty pool |
| Server.GameServer.HandleConnect | classes/GameServer.js:382-405 | a new player at a spawn point that is one rotation pick of the current map, with score 0, then a routine broadcast; an empty spawn pool registers nobody |
| Server.GameServer.AddPlayer | classes/GameServer.js:394-396 | a fresh full-health player is filed under the id with score 0; no other player changes |
| Server.GameServer.Admit | classes/GameServer.js:394-405 | the new player is registered at the spawn point with score 0 and a routine broadcast follows; no enemy or map changes |

## Left out

- Networking, HTTP routes, WebSocket wiring, message dispatch and JSON parsing (`setupServer`, `setupWebSocket`, `start`, `server.js`) are not modelled: they are I/O.
- The wire formats are not modelled: `toJSON`, `getInitialState`, `getScoresObject`, the serialisation and `client.send` loop of `performBroadcast`, and the initial-state message of the connection handler only reshape data.
- Logging (`console.log`) is not modelled.
- Sprite, audio and resource getters of the map are not modelled: they are configuration data.
- `getClientByPlayerId` is the `clientOpen` parameter of `HandlePlayerMove`. The correction message's content is not modelled, only whether one is sent.
- Player ids and names (`generatePlayerId`, `generatePlayerName`) are parameters of `HandleConnect`.
- Map files are parameters: the parsed contents of `custom_map.json` and `forest_theme.json` are the `custom` argument of the constructors, and `loadMapFromFile` takes its parsed file. A failed parse of the first file also skips the second, because one `catch` covers both; the caller passes what was actually registered.
- Timers are explicit methods: the deferred flush is `FirePendingBroadcast`, and the 50 ms echo after a swing is `FireSwingEcho`, fired oldest first. When and in what order the caller fires them is not modelled.
- Coordinates are integers. `Math.round` in `toJSON`, fractional coordinates (random enemy spawns are fractional in the source) and IEEE-754 rounding are not modelled.
- Iteration order of the player and enemy tables is not modelled. Every loop takes the entries in any order, so which player gets which spawn point on a map switch is left open; the other results do not depend on the order.
- An empty player spawn pool makes the source read a property of `undefined` and throw. The model returns no point instead: a connection then registers nobody, and a map switch with players ends as `Aborted` after the current map has changed.
- A grid row missing from a custom `tileMap` makes the source throw inside the map's tile check and `getTileTypeAt`. The model treats that cell like an unknown tile type.
- The diagnostic and combined collision checks take a positive tile size. A zero or negative `tileSize` in the map record is not modelled, and neither is a negative `tileSize` passed to the map constructor.
- `dx`, `dy` and the canvas sizes of a move are integers. Non-numeric message fields are not modelled.
- `getRandomMap` and the random choices inside the spawn draws are nondeterministic: the model states what holds for every draw, not the distribution.
- Maps.GenerateDefaultTileMap: the sine/cosine noise and the random draws that pick each cell are left open. Only the grid's shape, the four possible terrains and the rule that water lies away from the centre are stated.
- Maps.GameMap.GetEnemySpawnPoints: "without replacement" is stated on values, as the drawn points forming a sub-multiset of the pool, not as distinct indices.

## Code over specification

Where the written description of the system and the code disagree, the model follows the code:

- Feet collision moves only the boundary and tile tests to the feet circle. The obstacle test always uses the nominal centre and radius (`CollisionSystem.MapCollides`).
- The boundary test is `x < r || x >= w - r` on the map's full size. A radius-5 circle at (92,50) on a 100 x 100 map is clear (`CollisionSystem.OpenMapScenario`).
- A target level with the attacker, such as (108,100) for an attacker at (100,100) facing down, is missed by the sign test of the arc, whatever its offset (`Combat.SwingScenario`).
- After a quiet spell, two routine broadcast requests 5 ms apart are not merged: the first flushes at once and the second schedules a timer (`Broadcasting.QuietBurstScenario`).

## Findings

| source | as written | input that shows it | evidently intended | confidence | as-written member | corrected member |
|---|---|---|---|---|---|---|
| classes/Map.js:147-151 | the loop bound `Math.min(count, availableSpawns.length)` is re-read after every `splice`, so it shrinks while `i` grows | `getEnemySpawnPoints(5)` on the default five-point pool draws 3 pool points and 2 random ones; a two-point pool gives 1 pool point | draw min(count, pool size) distinct pool points, then top up with random points | high, not executed | Maps.GameMap.GetEnemySpawnPointsAsWritten (with Maps.AsWrittenTakesAtMostHalf, Maps.AsWrittenDefaultCount) | Maps.GameMap.GetEnemySpawnPoints |

The server's waves (`Server.IsWave`, used by `Server.GameServer.SpawnEnemies` and everything that respawns a wave) follow the draw as written, as the program does; the corrected draw stands beside it with its intended property proved.
