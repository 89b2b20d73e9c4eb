/**
 * The registry of maps. Custom map files are registered first, then the
 * three built-in maps (Battle Arena, Dark Forest, Duel Arena), each only
 * when no map with its id exists yet. Registering a map under an id that
 * is taken replaces the earlier map but keeps the id's place in the
 * listing order. One map is current; `custom_map` is preferred at start.
 */
module MapManagement {
  import opened Shapes
  import opened Maps

  const CUSTOM_MAP_ID := "custom_map"
  const ARENA_ID := "arena"
  const FOREST_ID := "forest"
  const DUEL_ID := "duel"

  const ARENA: MapSpec := MapSpec(
    Some(ARENA_ID), Some("Battle Arena"), Some(800), Some(600),
    Some([Point(50, 50), Point(750, 50), Point(50, 550), Point(750, 550)]),
    Some([Point(300, 200), Point(500, 200), Point(300, 400), Point(500, 400), Point(400, 300)]),
    Some([Rect(200, 200, 50, 50), Rect(550, 200, 50, 50), Rect(200, 350, 50, 50), Rect(550, 350, 50, 50),
          Rect(375, 275, 50, 50)]),
    Some(BoundsSpec(Some(11), Some(11), Some(789), Some(589))),
    None, None, None)

  const FOREST: MapSpec := MapSpec(
    Some(FOREST_ID), Some("Dark Forest"), Some(1000), Some(800),
    Some([Point(100, 100), Point(900, 100), Point(100, 700), Point(900, 700), Point(500, 400)]),
    Some([Point(200, 200), Point(800, 200), Point(200, 600), Point(800, 600), Point(300, 400), Point(700, 400),
          Point(500, 250), Point(500, 550)]),
    Some([Rect(300, 150, 30, 30), Rect(500, 180, 30, 30), Rect(700, 160, 30, 30), Rect(250, 350, 30, 30),
          Rect(750, 380, 30, 30), Rect(450, 450, 30, 30), Rect(600, 320, 30, 30)]),
    Some(BoundsSpec(Some(11), Some(11), Some(989), Some(789))),
    None, None, None)

  const DUEL: MapSpec := MapSpec(
    Some(DUEL_ID), Some("Duel Arena"), Some(400), Some(400),
    Some([Point(100, 200), Point(300, 200)]),
    Some([Point(200, 100), Point(200, 300)]),
    Some([]),
    Some(BoundsSpec(Some(11), Some(11), Some(389), Some(389))),
    None, None, None)

  /** The id a map built from `s` is registered under. */
  function SpecId(s: MapSpec): string {
    OrStr(s.id, "default")
  }

  predicate NoDuplicates(s: seq<string>) {
    forall i, j :: 0 <= i < j < |s| ==> s[i] != s[j]
  }

  /** `Map.prototype.set` on the key order: a new key goes last, a present one keeps its place. */
  function AddId(order: seq<string>, id: string): seq<string> {
    if id in order then order else order + [id]
  }

  /** The listing order after registering `specs` in turn. */
  function OrderOf(specs: seq<MapSpec>): seq<string>
    decreases |specs|
  {
    if |specs| == 0 then [] else AddId(OrderOf(specs[..|specs| - 1]), SpecId(specs[|specs| - 1]))
  }

  /** Which description each id holds after registering `specs` in turn: the last one wins. */
  function Registry(specs: seq<MapSpec>): map<string, MapSpec>
    decreases |specs|
  {
    if |specs| == 0 then map[] else Registry(specs[..|specs| - 1])[SpecId(specs[|specs| - 1]) := specs[|specs| - 1]]
  }

  /** `loadDefaultMaps`: the built-ins whose ids are still free, in order. */
  function MissingBuiltIns(ids: set<string>): seq<MapSpec> {
    (if ARENA_ID in ids then [] else [ARENA])
    + (if FOREST_ID in ids then [] else [FOREST])
    + (if DUEL_ID in ids then [] else [DUEL])
  }

  /** Everything the constructor registers: the custom maps, then the missing built-ins. */
  function Loaded(custom: seq<MapSpec>): seq<MapSpec> {
    custom + MissingBuiltIns(Registry(custom).Keys)
  }

  /** The constructor's choice of current map: `custom_map` if registered, else the first id, else none. */
  function InitialMapId(specs: seq<MapSpec>): Option<string> {
    if CUSTOM_MAP_ID in Registry(specs) then Some(CUSTOM_MAP_ID)
    else if |OrderOf(specs)| > 0 then Some(OrderOf(specs)[0])
    else None
  }

  /** Registering one more description updates its id and, if new, appends the id to the order. */
  lemma RegisterOneMore(specs: seq<MapSpec>, spec: MapSpec)
    ensures Registry(specs + [spec]) == Registry(specs)[SpecId(spec) := spec]
    ensures OrderOf(specs + [spec]) == AddId(OrderOf(specs), SpecId(spec))
  {
    assert (specs + [spec])[..|specs|] == specs;
  }

  /** The same, for the files loaded so far: one more file registers the next description. */
  lemma RegisterNextFile(registered: seq<MapSpec>, custom: seq<MapSpec>, i: nat)
    requires i < |custom|
    ensures Registry(registered + custom[..i + 1]) == Registry(registered + custom[..i])[SpecId(custom[i]) := custom[i]]
    ensures OrderOf(registered + custom[..i + 1]) == AddId(OrderOf(registered + custom[..i]), SpecId(custom[i]))
  {
    assert registered + custom[..i + 1] == registered + custom[..i] + [custom[i]];
    RegisterOneMore(registered + custom[..i], custom[i]);
  }

  /** Registering `spec` only when its id is still free. */
  function AddIfAbsent(specs: seq<MapSpec>, spec: MapSpec): seq<MapSpec> {
    if SpecId(spec) in Registry(specs) then specs else specs + [spec]
  }

  /** Registering a description when its id is free leaves that id registered and adds no other. */
  lemma AddIfAbsentKeys(specs: seq<MapSpec>, spec: MapSpec)
    ensures Registry(AddIfAbsent(specs, spec)).Keys == Registry(specs).Keys + {SpecId(spec)}
  {
    if SpecId(spec) !in Registry(specs) {
      RegisterOneMore(specs, spec);
    }
  }

  /** Loading the missing built-ins is adding each built-in in turn when its id is free. */
  lemma LoadedStepByStep(custom: seq<MapSpec>)
    ensures Loaded(custom) == AddIfAbsent(AddIfAbsent(AddIfAbsent(custom, ARENA), FOREST), DUEL)
  {
    var ids := Registry(custom).Keys;
    var a: seq<MapSpec> := if ARENA_ID in ids then [] else [ARENA];
    var f: seq<MapSpec> := if FOREST_ID in ids then [] else [FOREST];
    var d: seq<MapSpec> := if DUEL_ID in ids then [] else [DUEL];
    assert SpecId(ARENA) == ARENA_ID && SpecId(FOREST) == FOREST_ID && SpecId(DUEL) == DUEL_ID;
    var s1 := AddIfAbsent(custom, ARENA);
    assert s1 == custom + a;
    AddIfAbsentKeys(custom, ARENA);
    var s2 := AddIfAbsent(s1, FOREST);
    assert s2 == custom + a + f;
    AddIfAbsentKeys(s1, FOREST);
    assert AddIfAbsent(s2, DUEL) == custom + a + f + d;
    assert custom + a + f + d == custom + (a + f + d);
  }

  /** The listing order holds every registered id once and nothing else. */
  lemma {:induction false} OrderMatchesRegistry(specs: seq<MapSpec>)
    ensures NoDuplicates(OrderOf(specs))
    ensures forall id :: id in OrderOf(specs) <==> id in Registry(specs)
    decreases |specs|
  {
    if |specs| > 0 {
      OrderMatchesRegistry(specs[..|specs| - 1]);
    }
  }

  /** Registering `a` then `b`: the ids of `b` hold `b`'s last description, the others `a`'s. */
  lemma {:induction false} RegistryAppend(a: seq<MapSpec>, b: seq<MapSpec>)
    ensures Registry(a + b).Keys == Registry(a).Keys + Registry(b).Keys
    ensures forall id :: id in Registry(a + b) ==>
      Registry(a + b)[id] == if id in Registry(b) then Registry(b)[id] else Registry(a)[id]
    decreases |b|
  {
    if |b| == 0 {
      assert a + b == a;
    } else {
      var b', last := b[..|b| - 1], b[|b| - 1];
      assert (a + b)[..|a + b| - 1] == a + b' && (a + b)[|a + b| - 1] == last;
      assert Registry(a + b) == Registry(a + b')[SpecId(last) := last];
      assert Registry(b) == Registry(b')[SpecId(last) := last];
      RegistryAppend(a, b');
    }
  }

  /** The three built-in ids are always registered. */
  lemma BuiltInsAlwaysPresent(custom: seq<MapSpec>)
    ensures ARENA_ID in Registry(Loaded(custom)) && FOREST_ID in Registry(Loaded(custom)) && DUEL_ID in Registry(Loaded(custom))
    ensures InitialMapId(Loaded(custom)).Some?
  {
    var missing := MissingBuiltIns(Registry(custom).Keys);
    RegistryAppend(custom, missing);
    BuiltInIds(Registry(custom).Keys);
    OrderMatchesRegistry(Loaded(custom));
    assert ARENA_ID in OrderOf(Loaded(custom));
  }

  lemma BuiltInIds(ids: set<string>)
    ensures ARENA_ID !in ids ==> ARENA_ID in Registry(MissingBuiltIns(ids)) && Registry(MissingBuiltIns(ids))[ARENA_ID] == ARENA
    ensures FOREST_ID !in ids ==> FOREST_ID in Registry(MissingBuiltIns(ids)) && Registry(MissingBuiltIns(ids))[FOREST_ID] == FOREST
    ensures DUEL_ID !in ids ==> DUEL_ID in Registry(MissingBuiltIns(ids)) && Registry(MissingBuiltIns(ids))[DUEL_ID] == DUEL
    ensures forall id :: id in Registry(MissingBuiltIns(ids)) ==> id in {ARENA_ID, FOREST_ID, DUEL_ID} && id !in ids
  {
    var m := MissingBuiltIns(ids);
    var a: seq<MapSpec> := if ARENA_ID in ids then [] else [ARENA];
    var f: seq<MapSpec> := if FOREST_ID in ids then [] else [FOREST];
    var d: seq<MapSpec> := if DUEL_ID in ids then [] else [DUEL];
    RegistryAppend(a, f);
    RegistryAppend(a + f, d);
    assert m == a + f + d;
  }

  /**
   * Custom maps take priority: an id a custom file registers keeps that
   * file's description, and a built-in is used only for an id no custom
   * file took.
   */
  lemma CustomTakesPriority(custom: seq<MapSpec>, id: string)
    ensures id in Registry(custom) ==> id in Registry(Loaded(custom)) && Registry(Loaded(custom))[id] == Registry(custom)[id]
    ensures id !in Registry(custom) && id == ARENA_ID ==> id in Registry(Loaded(custom)) && Registry(Loaded(custom))[id] == ARENA
    ensures id !in Registry(custom) && id == FOREST_ID ==> id in Registry(Loaded(custom)) && Registry(Loaded(custom))[id] == FOREST
    ensures id !in Registry(custom) && id == DUEL_ID ==> id in Registry(Loaded(custom)) && Registry(Loaded(custom))[id] == DUEL
  {
    var missing := MissingBuiltIns(Registry(custom).Keys);
    RegistryAppend(custom, missing);
    BuiltInIds(Registry(custom).Keys);
  }

  /** Without custom files the arena is current; a `custom_map` file makes itself current. */
  lemma InitialMapChoice(custom: seq<MapSpec>)
    ensures InitialMapId(Loaded([])) == Some(ARENA_ID)
    ensures CUSTOM_MAP_ID in Registry(custom) ==> InitialMapId(Loaded(custom)) == Some(CUSTOM_MAP_ID)
  {
    assert Loaded([]) == MissingBuiltIns({});
    BuiltInIds({});
    FirstRegisteredIsFirst(MissingBuiltIns({}));
    CustomTakesPriority(custom, CUSTOM_MAP_ID);
  }

  /** The first id registered heads the listing order for good. */
  lemma {:induction false} FirstRegisteredIsFirst(specs: seq<MapSpec>)
    requires |specs| > 0
    ensures |OrderOf(specs)| > 0 && OrderOf(specs)[0] == SpecId(specs[0])
    decreases |specs|
  {
    if |specs| > 1 {
      var init := specs[..|specs| - 1];
      FirstRegisteredIsFirst(init);
      assert init[0] == specs[0];
    }
  }

  /** The description behind each map of a table. */
  ghost function SpecsOf(maps: map<string, GameMap>): (r: map<string, MapSpec>)
    ensures r.Keys == maps.Keys
  {
    map id | id in maps :: maps[id].spec
  }

  /** Filing a map under an id files its description there and changes no other entry. */
  lemma SpecsOfUpdate(maps: map<string, GameMap>, id: string, m: GameMap)
    ensures SpecsOf(maps[id := m]) == SpecsOf(maps)[id := m.spec]
  {
  }

  /** A table holding everything the constructor registers has the built-ins, and its order starts with a registered id. */
  lemma LoadedTable(custom: seq<MapSpec>, maps: map<string, GameMap>, order: seq<string>)
    requires SpecsOf(maps) == Registry(Loaded(custom)) && order == OrderOf(Loaded(custom))
    ensures ARENA_ID in maps && FOREST_ID in maps && DUEL_ID in maps
    ensures |order| > 0 && order[0] in maps
    ensures InitialMapId(Loaded(custom)) == Some(if CUSTOM_MAP_ID in maps then CUSTOM_MAP_ID else order[0])
  {
    BuiltInsAlwaysPresent(custom);
    OrderMatchesRegistry(Loaded(custom));
    assert ARENA_ID in OrderOf(Loaded(custom));
  }

  /** An entry of `getAllMaps`. */
  datatype MapSummary = MapSummary(id: string, name: string, width: int, height: int)

  function Summary(m: GameMap): MapSummary {
    MapSummary(m.id, m.name, m.width, m.height)
  }

  class MapManager {
    var maps: map<string, GameMap>
    /** The ids in insertion order, which is the order a JavaScript `Map` lists them in. */
    var order: seq<string>
    var currentMapId: string

    /** Every map sits under its own id and is valid; the order lists each id once. */
    ghost predicate ValidRegistry()
      reads this`maps, this`order
    {
      && (forall id :: id in maps ==> maps[id].id == id && maps[id].Valid())
      && NoDuplicates(order)
      && (forall id :: id in order <==> id in maps)
    }

    /** ... and the current id and the built-in ids are registered. */
    ghost predicate Valid()
      reads this`maps, this`order, this`currentMapId
    {
      ValidRegistry() && currentMapId in maps && ARENA_ID in maps && FOREST_ID in maps && DUEL_ID in maps
    }

    /** The description behind each registered id. */
    ghost function Specs(): map<string, MapSpec>
      reads this`maps
    {
      SpecsOf(maps)
    }

    /**
     * `new MapManager()`, with `custom` standing for the map files that were
     * found and parsed (`custom_map.json`, then `forest_theme.json`).
     */
    constructor (custom: seq<MapSpec>)
      ensures Valid()
      ensures Specs() == Registry(Loaded(custom)) && order == OrderOf(Loaded(custom))
      ensures Some(currentMapId) == InitialMapId(Loaded(custom))
    {
      maps := map[];
      order := [];
      currentMapId := "";
      new;
      LoadCustomMaps([], custom);
      assert [] + custom == custom;
      LoadDefaultMaps(custom);
      ChooseInitialMap(custom);
    }

    /** The constructor's last step: `custom_map` becomes current when registered, otherwise the first registered map. */
    method ChooseInitialMap(ghost custom: seq<MapSpec>)
      requires ValidRegistry() && Specs() == Registry(Loaded(custom)) && order == OrderOf(Loaded(custom))
      modifies this`currentMapId
      ensures Valid()
      ensures Some(currentMapId) == InitialMapId(Loaded(custom))
    {
      LoadedTable(custom, maps, order);
      if CUSTOM_MAP_ID in maps {
        currentMapId := CUSTOM_MAP_ID;
      } else {
        currentMapId := order[0];
      }
    }

    /** `loadCustomMaps`: register each parsed file in turn, after the maps described by `registered`. */
    method LoadCustomMaps(ghost registered: seq<MapSpec>, custom: seq<MapSpec>)
      requires ValidRegistry() && Specs() == Registry(registered) && order == OrderOf(registered)
      modifies this`maps, this`order
      ensures ValidRegistry()
      ensures Specs() == Registry(registered + custom) && order == OrderOf(registered + custom)
    {
      var i := 0;
      assert registered + custom[..0] == registered;
      while i < |custom|
        invariant i <= |custom|
        invariant ValidRegistry()
        invariant Specs() == Registry(registered + custom[..i]) && order == OrderOf(registered + custom[..i])
      {
        RegisterMap(custom[i]);
        RegisterNextFile(registered, custom, i);
        i := i + 1;
      }
      assert custom[..i] == custom;
    }

    /** `loadDefaultMaps`: register each built-in whose id is still free, after the maps described by `registered`. */
    method LoadDefaultMaps(ghost registered: seq<MapSpec>)
      requires ValidRegistry() && Specs() == Registry(registered) && order == OrderOf(registered)
      modifies this`maps, this`order
      ensures ValidRegistry()
      ensures Specs() == Registry(Loaded(registered)) && order == OrderOf(Loaded(registered))
    {
      RegisterIfAbsent(ARENA, registered);
      RegisterIfAbsent(FOREST, AddIfAbsent(registered, ARENA));
      RegisterIfAbsent(DUEL, AddIfAbsent(AddIfAbsent(registered, ARENA), FOREST));
      LoadedStepByStep(registered);
    }

    /** `if (!this.maps.has(id)) this.registerMap(spec)`. */
    method RegisterIfAbsent(spec: MapSpec, ghost registered: seq<MapSpec>)
      requires ValidRegistry() && Specs() == Registry(registered) && order == OrderOf(registered)
      modifies this`maps, this`order
      ensures ValidRegistry()
      ensures Specs() == Registry(AddIfAbsent(registered, spec)) && order == OrderOf(AddIfAbsent(registered, spec))
    {
      if SpecId(spec) !in maps {
        RegisterMap(spec);
        RegisterOneMore(registered, spec);
      }
    }

    /** `registerMap(mapData)`: build the map and file it under its id, replacing any map with that id. */
    method RegisterMap(spec: MapSpec)
      requires ValidRegistry()
      modifies this`maps, this`order
      ensures ValidRegistry()
      ensures Specs() == old(Specs())[SpecId(spec) := spec]
      ensures order == AddId(old(order), SpecId(spec))
      ensures maps.Keys == old(maps.Keys) + {SpecId(spec)}
      ensures fresh(maps[SpecId(spec)]) && maps[SpecId(spec)].usedPlayerSpawns == {}
      ensures forall id :: id in old(maps) && id != SpecId(spec) ==> maps[id] == old(maps[id])
    {
      var m := new GameMap(spec);
      File(m);
    }

    /** `this.maps.set(map.id, map)`: file a built map under its id. */
    method File(m: GameMap)
      requires ValidRegistry() && m.Valid() && m.id == SpecId(m.spec)
      modifies this`maps, this`order
      ensures ValidRegistry()
      ensures maps == old(maps)[m.id := m] && order == AddId(old(order), m.id)
      ensures Specs() == old(Specs())[m.id := m.spec]
    {
      SpecsOfUpdate(maps, m.id, m);
      maps := maps[m.id := m];
      if m.id !in order {
        order := order + [m.id];
      }
    }

    /**
     * `loadMapFromFile(filePath)`, with `parsed` standing for the file's
     * contents (nothing when reading or parsing failed): on success the map
     * is registered and the file's own `id` entry is returned.
     */
    method LoadMapFromFile(parsed: Option<MapSpec>) returns (id: Option<string>)
      requires ValidRegistry()
      modifies this`maps, this`order
      ensures ValidRegistry()
      ensures parsed.None? ==> id.None? && maps == old(maps) && order == old(order)
      ensures parsed.Some? ==> id == parsed.value.id && Specs() == old(Specs())[SpecId(parsed.value) := parsed.value]
      ensures parsed.Some? ==> order == AddId(old(order), SpecId(parsed.value))
    {
      if parsed.None? {
        return None;
      }
      RegisterMap(parsed.value);
      id := parsed.value.id;
    }

    /** `switchMap(mapId)`: succeeds exactly for a registered id, which becomes current. */
    method SwitchMap(mapId: string) returns (switched: bool)
      modifies this`currentMapId
      ensures switched <==> mapId in maps
      ensures currentMapId == if switched then mapId else old(currentMapId)
    {
      if mapId in maps {
        currentMapId := mapId;
        return true;
      }
      return false;
    }

    /** `getCurrentMap`: the registered map that is current, filed under its own id. */
    function GetCurrentMap(): (m: GameMap)
      reads this
      requires currentMapId in maps
      ensures m in maps.Values
      ensures ValidRegistry() ==> m.id == currentMapId
    {
      maps[currentMapId]
    }

    /** `getMap`: a map is found exactly for a registered id, and it is the one filed under that id. */
    function GetMap(mapId: string): (r: Option<GameMap>)
      reads this
      ensures r.Some? <==> mapId in maps
      ensures r.Some? ==> r.value in maps.Values
      ensures ValidRegistry() && r.Some? ==> r.value.id == mapId
    {
      if mapId in maps then Some(maps[mapId]) else None
    }

    /** `hasMap`: agrees with `getMap`, and with the listing order. */
    function HasMap(mapId: string): (r: bool)
      reads this
      ensures r <==> GetMap(mapId).Some?
      ensures ValidRegistry() ==> (r <==> mapId in order)
    {
      mapId in maps
    }

    /** `getAllMaps`: one summary per registered map, in insertion order. */
    method GetAllMaps() returns (list: seq<MapSummary>)
      requires ValidRegistry()
      ensures |list| == |order| && forall i :: 0 <= i < |list| ==> list[i] == Summary(maps[order[i]])
      ensures forall id :: id in maps <==> exists i :: 0 <= i < |list| && list[i].id == id
      ensures forall i, j :: 0 <= i < j < |list| ==> list[i].id != list[j].id
    {
      list := [];
      var i := 0;
      while i < |order|
        invariant i <= |order| && |list| == i
        invariant forall k :: 0 <= k < i ==> list[k] == Summary(maps[order[k]])
      {
        list := list + [Summary(maps[order[i]])];
        i := i + 1;
      }
      forall id | id in maps ensures exists i :: 0 <= i < |list| && list[i].id == id {
        var k :| 0 <= k < |order| && order[k] == id;
        assert list[k].id == id;
      }
    }

    /** `getRandomMap`: some registered map. */
    method GetRandomMap() returns (m: GameMap)
      requires Valid()
      ensures m in maps.Values
    {
      var id :| id in maps;
      m := maps[id];
    }
  }

}
