/** `SurvivalGame`: the world, its actors, the occupancy dictionary and the frame loop. */
module Game {
  import opened Wrappers
  import opened Lists
  import opened Vectors
  import opened Terrains
  import opened DeterministicRandom
  import opened Actors
  import opened RatLogic
  import opened GameRules
  import opened Pathing

  /** `StateChange`: what one frame (or the start) tells the clients. */
  datatype StateChange = StateChange(frame: int, actors: seq<Actor>, killedActors: seq<Actor>, terrainChange: seq<TerrainChange>)

  /** `GameStartState`. */
  datatype GameStartState = GameStartState(config: SurvivalGameConfig, change: StateChange)

  /** The number of rats `GenerateWorld` spawns. */
  const RatCount := 8

  /** Ids are unique and drawn from `0 .. n - 1` (`nextId++`). */
  predicate IdsBelow(actors: seq<Actor>, n: int) {
    0 <= n &&
    (forall a :: a in actors ==> 0 <= a.id < n) &&
    (forall a, b :: a in actors && b in actors && a.id == b.id ==> a == b)
  }

  lemma IdsAdd(actors: seq<Actor>, n: int, a: Actor)
    requires IdsBelow(actors, n) && a.id == n
    ensures IdsBelow(actors + [a], n + 1)
  {
  }

  /** Raising the bound keeps the ids below it. */
  lemma ConsistentGrow(actors: seq<Actor>, states: seq<ActorState>, lookup: map<int, Actor>, rats: seq<Actor>, nextId: int, t: Terrain)
    requires Consistent(actors, states, lookup, rats, nextId, t)
    ensures Consistent(actors, states, lookup, rats, nextId + 1, t)
  {
  }

  lemma IdsRemove(actors: seq<Actor>, n: int, a: Actor)
    requires IdsBelow(actors, n)
    ensures IdsBelow(RemoveFirst(actors, a), n)
  {
  }

  /**
   * The part of the game's invariant about its lists: `states` are the
   * actors' states; the rat logic tracks exactly the rats, in list order; no
   * actor is listed twice; ids are unique and below `nextId`; `m_lookup`
   * keys each actor under its cell and holds nothing else; and every actor's
   * cell index lies in the heightmap.
   */
  ghost predicate Consistent(actors: seq<Actor>, states: seq<ActorState>, lookup: map<int, Actor>, rats: seq<Actor>, nextId: int, t: Terrain)
  {
    forall n | Expand(n) ::
      |states| == |actors| && rats == RatsOf(actors) && Distinct(actors) && IdsBelow(actors, nextId) &&
      Keyed(actors, CellSeq(states, t), lookup) && AllInMap(states, t)
  }

  /**
   * A guard that is always true. `Consistent` is stated under it, so the
   * verifier looks inside the invariant only where a proof asks for that,
   * through `ConsistentIs`, and not in every method that merely passes it on.
   */
  predicate Expand(n: int) { true }

  /** `Keyed` on the states' cells, under the same guard as `Consistent`. */
  ghost predicate KeyedAt(actors: seq<Actor>, states: seq<ActorState>, lookup: map<int, Actor>, t: Terrain)
  {
    forall n | Expand(n) :: Keyed(actors, CellSeq(states, t), lookup)
  }

  lemma KeyedAtIs(actors: seq<Actor>, states: seq<ActorState>, lookup: map<int, Actor>, t: Terrain)
    ensures KeyedAt(actors, states, lookup, t) <==> Keyed(actors, CellSeq(states, t), lookup)
  {
    assert Expand(0);
  }

  lemma ConsistentIs(actors: seq<Actor>, states: seq<ActorState>, lookup: map<int, Actor>, rats: seq<Actor>, nextId: int, t: Terrain)
    ensures Consistent(actors, states, lookup, rats, nextId, t) <==>
      |states| == |actors| && rats == RatsOf(actors) && Distinct(actors) && IdsBelow(actors, nextId) &&
      Keyed(actors, CellSeq(states, t), lookup) && AllInMap(states, t)
  {
    assert Expand(0);
  }

  /**
   * `SpawnActor` of a new actor with a fresh id on a free cell keeps the
   * lists consistent: the primed values are the lists after the spawn.
   */
  lemma ConsistentAdd(actors: seq<Actor>, states: seq<ActorState>, lookup: map<int, Actor>, rats: seq<Actor>, nextId: int, t: Terrain,
                      a: Actor, s: ActorState,
                      actors': seq<Actor>, states': seq<ActorState>, lookup': map<int, Actor>, rats': seq<Actor>)
    requires Consistent(actors, states, lookup, rats, nextId, t)
    requires a !in actors && IdsBelow(actors + [a], nextId) && InMap(s, t) && t.GetIdxOf(s.pos) !in lookup
    requires actors' == actors + [a] && states' == states + [s] && lookup' == lookup[t.GetIdxOf(s.pos) := a]
    requires rats' == rats + (if a.actorType == Rat then [a] else [])
    ensures Consistent(actors', states', lookup', rats', nextId, t)
  {
    ConsistentIs(actors, states, lookup, rats, nextId, t);
    ConsistentIs(actors', states', lookup', rats', nextId, t);
    RatsOfAppend(actors, a);
    CellSeqAppend(states, s, t);
    KeyedAdd(actors, CellSeq(states, t), lookup, a, t.GetIdxOf(s.pos));
    AllInMapAdd(states, t, s);
    assert Distinct(actors + [a]) by {
      assert forall j :: 0 <= j < |actors| ==> (actors + [a])[j] == actors[j];
    }
  }

  /**
   * `KillActor` of the actor at position `i` keeps the lists consistent:
   * the primed values are the lists after the removal.
   */
  lemma ConsistentRemove(actors: seq<Actor>, states: seq<ActorState>, lookup: map<int, Actor>, rats: seq<Actor>, nextId: int, t: Terrain,
                         i: int,
                         actors': seq<Actor>, states': seq<ActorState>, lookup': map<int, Actor>, rats': seq<Actor>)
    requires Consistent(actors, states, lookup, rats, nextId, t) && 0 <= i < |actors| == |states|
    requires actors' == actors[..i] + actors[i + 1..] && states' == states[..i] + states[i + 1..]
    requires lookup' == lookup - {t.GetIdxOf(states[i].pos)}
    requires rats' == if actors[i].actorType == Rat then RemoveFirst(rats, actors[i]) else rats
    ensures Consistent(actors', states', lookup', rats', nextId, t)
  {
    ConsistentIs(actors, states, lookup, rats, nextId, t);
    ConsistentIs(actors', states', lookup', rats', nextId, t);
    var a := actors[i];
    assert IndexOf(actors, a) == i;
    assert RemoveFirst(actors, a) == actors';
    RemoveFirstDistinct(actors, a);
    RatsOfRemove(actors, a);
    IdsRemove(actors, nextId, a);
    CellSeqSplice(states, i, t);
    KeyedRemove(actors, CellSeq(states, t), lookup, i);
    AllInMapRemove(states, t, i);
  }

  /**
   * What `BuildMoveOrder` does for an actor at `pos` with heading `dir`: the
   * generator afterwards, and the order it sets, or `None` when the walk
   * takes no step and the order is left alone.
   */
  function Plan(g: RngState, t: Terrain, pos: Vec3, dir: int, targetIdx: int): (RngState, Option<Order>)
    requires Playable(t) && t.InRange(t.GetIdxOf(pos)) && t.InRange(targetIdx)
  {
    var cidx := t.GetIdxOf(pos);
    CellRoundTrip(t, cidx);
    CellRoundTrip(t, targetIdx);
    var cx, cy := t.GetX(cidx), t.GetY(cidx);
    var (g', cells) := PathFrom(g, t, cx, cy, t.GetX(targetIdx), t.GetY(targetIdx));
    PathShape(g, t, cx, cy, t.GetX(targetIdx), t.GetY(targetIdx));
    var path := [cidx] + cells;
    if |path| > 1 then (g', Some(Order(ActionsUpTo(t, path, dir, |path|).0))) else (g', None)
  }

  /** A planned order is made of fresh zero-delay Rotates and Moves, and every Move lands on a cell whose index lies in the heightmap. */
  lemma PlanInMap(g: RngState, t: Terrain, pos: Vec3, dir: int, targetIdx: int)
    requires Playable(t) && t.InRange(t.GetIdxOf(pos)) && t.InRange(targetIdx)
    ensures var o := Plan(g, t, pos, dir, targetIdx).1;
      o.Some? ==>
        (forall a :: a in o.value.actions ==> Plain(a)) &&
        (forall a :: a in o.value.actions && a.kind == Move ==> t.InRange(t.GetIdxOf(a.target)))
  {
    var cidx := t.GetIdxOf(pos);
    CellRoundTrip(t, cidx);
    CellRoundTrip(t, targetIdx);
    var cx, cy := t.GetX(cidx), t.GetY(cidx);
    PathShape(g, t, cx, cy, t.GetX(targetIdx), t.GetY(targetIdx));
    var path := [cidx] + PathFrom(g, t, cx, cy, t.GetX(targetIdx), t.GetY(targetIdx)).1;
    if |path| > 1 {
      ActionsPlain(t, path, dir, |path|);
      ActionsMovesInRange(t, path, dir, |path|);
    }
  }

  /**
   * The shape of a planned order: staying put plans nothing; otherwise the
   * Moves go one per step, at most one per unit of distance, and the last
   * one lands on the target exactly when the walk was never refused.
   */
  lemma PlanShape(g: RngState, t: Terrain, pos: Vec3, dir: int, targetIdx: int)
    requires Playable(t) && t.InRange(t.GetIdxOf(pos)) && t.InRange(targetIdx)
    ensures var cidx := t.GetIdxOf(pos);
      var o := Plan(g, t, pos, dir, targetIdx).1;
      var d := Dist(t.GetX(cidx), t.GetY(cidx), t.GetX(targetIdx), t.GetY(targetIdx));
      (cidx == targetIdx ==> o == None) &&
      (o.Some? ==>
        var moves := MovesOf(o.value.actions);
        1 <= |moves| <= d && (moves[|moves| - 1] == CellAt(t, targetIdx) <==> |moves| == d))
  {
    var cidx := t.GetIdxOf(pos);
    CellRoundTrip(t, cidx);
    CellRoundTrip(t, targetIdx);
    var cx, cy, tx, ty := t.GetX(cidx), t.GetY(cidx), t.GetX(targetIdx), t.GetY(targetIdx);
    PathShape(g, t, cx, cy, tx, ty);
    var path := [cidx] + PathFrom(g, t, cx, cy, tx, ty).1;
    assert path[0] == cidx;
    if cidx == targetIdx {
      assert Dist(cx, cy, tx, ty) == 0;
    }
    if |path| > 1 {
      ActionsMoves(t, path, dir, |path|);
      var last := path[|path| - 1];
      CellRoundTrip(t, last);
      assert CellAt(t, last) == CellAt(t, targetIdx) <==> last == targetIdx;
    }
  }

  /**
   * The draws that place a new actor: a spot from `GetFreeSpot`, then
   * `Range(0, 4)` for the heading, then `Range(0, subTypes)` for the sub-type.
   * The spot's cell index lies in the heightmap, and a free spot carries its terrain height.
   */
  function Arrival(g: RngState, occupied: set<int>, t: Terrain, subTypes: int): (r: (RngState, Vec3, int, int))
    requires Playable(t) && 0 < subTypes < TWO31
    ensures t.InRange(t.GetIdxOf(r.1)) && IsDir(r.2) && 0 <= r.3 < subTypes
    ensures t.GetIdxOf(r.1) !in occupied ==> r.1.y == t.GetHeightOf(r.1)
    ensures r.1.y > 0 ==> t.GetIdxOf(r.1) !in occupied
  {
    FreeSpotShape(g, occupied, t, 0, Vec3(0, 0, 0));
    var (g1, pos) := FreeSpot(g, occupied, t);
    DrawFromZero(g1, 4);
    var (g2, dir) := Draw(g1, 0, 4);
    DrawFromZero(g2, subTypes);
    var (g3, sub) := Draw(g2, 0, subTypes);
    (g3, pos, dir, sub)
  }

  /** Rats as `GenerateWorld` makes them: consecutive ids from `firstId`, two sub-types, no name. */
  predicate NewRats(made: seq<Actor>, firstId: int)
  {
    forall k :: 0 <= k < |made| ==>
      made[k].id == firstId + k && made[k].actorType == Rat && 0 <= made[k].subType < 2 && made[k].name == ""
  }

  lemma NewRatsAppend(made: seq<Actor>, firstId: int, a: Actor)
    requires NewRats(made, firstId)
    requires a.id == firstId + |made| && a.actorType == Rat && 0 <= a.subType < 2 && a.name == ""
    ensures NewRats(made + [a], firstId)
  {
  }

  /** Newly placed actors: a heading, and no order yet. */
  predicate Unordered(states: seq<ActorState>)
  {
    forall k :: 0 <= k < |states| ==> IsDir(states[k].dir) && states[k].order == None
  }

  lemma UnorderedAppend(states: seq<ActorState>, s: ActorState)
    requires Unordered(states) && IsDir(s.dir) && s.order == None
    ensures Unordered(states + [s])
  {
    assert forall k :: 0 <= k < |states| ==> (states + [s])[k] == states[k];
  }

  lemma UnorderedCons(s: ActorState, states: seq<ActorState>)
    requires IsDir(s.dir) && s.order == None && Unordered(states)
    ensures Unordered([s] + states)
  {
    assert forall k :: 1 <= k < |states| + 1 ==> ([s] + states)[k] == states[k - 1];
  }

  lemma SubTypesCons(sub: int, subs: seq<int>)
    requires 0 <= sub < 2 && forall k :: 0 <= k < |subs| ==> 0 <= subs[k] < 2
    ensures forall k :: 0 <= k < |subs| + 1 ==> 0 <= ([sub] + subs)[k] < 2
  {
    assert forall k :: 1 <= k < |subs| + 1 ==> ([sub] + subs)[k] == subs[k - 1];
  }

  /** The sub-type of each actor, in list order. */
  function SubTypesOf(actors: seq<Actor>): (r: seq<int>)
    ensures |r| == |actors| && forall k :: 0 <= k < |actors| ==> r[k] == actors[k].subType
  {
    seq(|actors|, k requires 0 <= k < |actors| => actors[k].subType)
  }

  lemma SubTypesOfAppend(actors: seq<Actor>, a: Actor)
    ensures SubTypesOf(actors + [a]) == SubTypesOf(actors) + [a.subType]
  {
    assert forall k :: 0 <= k < |actors| ==> (actors + [a])[k] == actors[k];
  }

  /**
   * The rats `GenerateWorld` places, as values: the generator afterwards,
   * each rat's state and sub-type in spawning order, and whether every spot
   * was free, so that no `SpawnActor` threw.
   */
  datatype World = World(rng: RngState, states: seq<ActorState>, subTypes: seq<int>, fits: bool)

  /**
   * `n` arrivals in turn, each with `Range(0, 2)` sub-types; after each one
   * the occupied cells grow by the cell it spawned on.
   */
  function WorldRats(g: RngState, occupied: set<int>, t: Terrain, n: nat): (w: World)
    requires Playable(t)
    ensures |w.states| == |w.subTypes| == n
    decreases n
  {
    if n == 0 then World(g, [], [], true)
    else
      var r := Arrival(g, occupied, t, 2);
      var rest := WorldRats(r.0, occupied + {t.GetIdxOf(r.1)}, t, n - 1);
      World(rest.rng, [ActorState(r.1, r.2, None)] + rest.states, [r.3] + rest.subTypes,
            t.GetIdxOf(r.1) !in occupied && rest.fits)
  }

  /** One unfolding of `WorldRats`: the first arrival, then the rest on the grown occupancy. */
  lemma WorldRatsNext(g: RngState, occupied: set<int>, t: Terrain, n: nat)
    requires Playable(t) && 0 < n
    ensures var r := Arrival(g, occupied, t, 2);
      var w, rest := WorldRats(g, occupied, t, n), WorldRats(r.0, occupied + {t.GetIdxOf(r.1)}, t, n - 1);
      w.rng == rest.rng && w.states == [ActorState(r.1, r.2, None)] + rest.states &&
      w.subTypes == [r.3] + rest.subTypes && w.fits == (t.GetIdxOf(r.1) !in occupied && rest.fits)
  {
  }

  /** `w0` is what `placed` and `subs` followed by the arrivals still to come, `w`, add up to. */
  predicate Resumes(w0: World, placed: seq<ActorState>, subs: seq<int>, w: World)
  {
    w0.rng == w.rng && w0.states == placed + w.states && w0.subTypes == subs + w.subTypes && w0.fits == w.fits
  }

  /**
   * A rat spawned on a free spot moves from the arrivals still to come to
   * the placed ones; a taken spot means the world does not fit.
   */
  lemma ResumesNext(w0: World, placed: seq<ActorState>, subs: seq<int>, g: RngState, occupied: set<int>, t: Terrain, n: nat)
    requires Playable(t) && 0 < n && Resumes(w0, placed, subs, WorldRats(g, occupied, t, n))
    ensures var r := Arrival(g, occupied, t, 2);
      (t.GetIdxOf(r.1) in occupied ==> !w0.fits) &&
      (t.GetIdxOf(r.1) !in occupied ==>
        Resumes(w0, placed + [ActorState(r.1, r.2, None)], subs + [r.3], WorldRats(r.0, occupied + {t.GetIdxOf(r.1)}, t, n - 1)))
  {
    var r := Arrival(g, occupied, t, 2);
    var c := t.GetIdxOf(r.1);
    WorldRatsNext(g, occupied, t, n);
    var w := WorldRats(g, occupied, t, n);
    var rest := WorldRats(r.0, occupied + {c}, t, n - 1);
    var st := ActorState(r.1, r.2, None);
    assert w.states == [st] + rest.states && w.subTypes == [r.3] + rest.subTypes;
    assert w0.states == placed + [st] + rest.states by {
      assert placed + ([st] + rest.states) == placed + [st] + rest.states;
    }
    assert w0.subTypes == subs + [r.3] + rest.subTypes by {
      assert subs + ([r.3] + rest.subTypes) == subs + [r.3] + rest.subTypes;
    }
  }

  /**
   * What holds between two spawns of `GenerateWorld`, as values: the rats
   * `made` so far extend the actors `actors0` with consecutive ids from
   * `id0`, states `placed` and sub-types `subs`, and `w0` is what they and
   * the arrivals still to come, `rest`, add up to.
   */
  ghost predicate GeneratingAt(w0: World, actors0: seq<Actor>, states0: seq<ActorState>, id0: int,
                               made: seq<Actor>, placed: seq<ActorState>, subs: seq<int>,
                               actors: seq<Actor>, states: seq<ActorState>, nextId: int, rest: World)
  {
    |made| == |placed| <= RatCount && actors == actors0 + made && states == states0 + placed &&
    nextId == id0 + |made| && NewRats(made, id0) && Unordered(placed) && subs == SubTypesOf(made) &&
    Resumes(w0, placed, subs, rest)
  }

  /** A rat spawned with the next id, a heading and a sub-type below 2 keeps `GeneratingAt`. */
  lemma GeneratingNext(w0: World, actors0: seq<Actor>, states0: seq<ActorState>, id0: int,
                       made: seq<Actor>, placed: seq<ActorState>, subs: seq<int>,
                       actors: seq<Actor>, states: seq<ActorState>, nextId: int, rest: World,
                       a: Actor, s: ActorState, rest': World)
    requires GeneratingAt(w0, actors0, states0, id0, made, placed, subs, actors, states, nextId, rest)
    requires |made| < RatCount && IsDir(s.dir) && s.order == None
    requires a.id == nextId && a.actorType == Rat && 0 <= a.subType < 2 && a.name == ""
    requires Resumes(w0, placed + [s], subs + [a.subType], rest')
    ensures GeneratingAt(w0, actors0, states0, id0, made + [a], placed + [s], subs + [a.subType],
                         actors + [a], states + [s], nextId + 1, rest')
  {
    assert actors + [a] == actors0 + (made + [a]);
    assert states + [s] == states0 + (placed + [s]);
    NewRatsAppend(made, id0, a);
    UnorderedAppend(placed, s);
    SubTypesOfAppend(made, a);
  }

  /** Every rat of the world stands on a cell whose index lies in the heightmap. */
  lemma {:induction false} WorldRatsInMap(g: RngState, occupied: set<int>, t: Terrain, n: nat)
    requires Playable(t)
    ensures AllInMap(WorldRats(g, occupied, t, n).states, t)
    decreases n
  {
    if 0 < n {
      var r := Arrival(g, occupied, t, 2);
      WorldRatsNext(g, occupied, t, n);
      WorldRatsInMap(r.0, occupied + {t.GetIdxOf(r.1)}, t, n - 1);
      AllInMapCons(ActorState(r.1, r.2, None), WorldRats(r.0, occupied + {t.GetIdxOf(r.1)}, t, n - 1).states, t);
    }
  }

  /** Every rat of the world has a heading and no order, and sub-type 0 or 1. */
  lemma {:induction false} WorldRatsUnordered(g: RngState, occupied: set<int>, t: Terrain, n: nat)
    requires Playable(t)
    ensures var w := WorldRats(g, occupied, t, n);
      Unordered(w.states) && forall k :: 0 <= k < n ==> 0 <= w.subTypes[k] < 2
    decreases n
  {
    if 0 < n {
      var r := Arrival(g, occupied, t, 2);
      WorldRatsNext(g, occupied, t, n);
      WorldRatsUnordered(r.0, occupied + {t.GetIdxOf(r.1)}, t, n - 1);
      var rest := WorldRats(r.0, occupied + {t.GetIdxOf(r.1)}, t, n - 1);
      UnorderedCons(ActorState(r.1, r.2, None), rest.states);
      SubTypesCons(r.3, rest.subTypes);
    }
  }

  /**
   * The rats stand on cells whose indices lie in the heightmap and are not
   * in `occupied`, pairwise distinct, each at its terrain height.
   */
  ghost predicate Apart(states: seq<ActorState>, occupied: set<int>, t: Terrain)
  {
    forall k :: 0 <= k < |states| ==>
      t.GetIdxOf(states[k].pos) !in occupied &&
      t.InRange(t.GetIdxOf(states[k].pos)) && states[k].pos.y == t.GetHeightOf(states[k].pos) &&
      forall j :: 0 <= j < k ==> t.GetIdxOf(states[j].pos) != t.GetIdxOf(states[k].pos)
  }

  lemma ApartCons(s: ActorState, states: seq<ActorState>, occupied: set<int>, t: Terrain)
    requires t.GetIdxOf(s.pos) !in occupied && t.InRange(t.GetIdxOf(s.pos)) && s.pos.y == t.GetHeightOf(s.pos)
    requires Apart(states, occupied + {t.GetIdxOf(s.pos)}, t)
    ensures Apart([s] + states, occupied, t)
  {
    var all := [s] + states;
    forall k | 1 <= k < |all|
      ensures t.GetIdxOf(all[k].pos) !in occupied && t.InRange(t.GetIdxOf(all[k].pos)) && all[k].pos.y == t.GetHeightOf(all[k].pos)
      ensures forall j :: 0 <= j < k ==> t.GetIdxOf(all[j].pos) != t.GetIdxOf(all[k].pos)
    {
      assert all[k] == states[k - 1];
      forall j | 1 <= j < k
        ensures t.GetIdxOf(all[j].pos) != t.GetIdxOf(all[k].pos)
      {
        assert all[j] == states[j - 1];
      }
    }
  }

  /** When every spot was free the rats of the world are `Apart` from `occupied`. */
  lemma {:induction false} WorldRatsApart(g: RngState, occupied: set<int>, t: Terrain, n: nat)
    requires Playable(t)
    ensures var w := WorldRats(g, occupied, t, n);
      w.fits ==> Apart(w.states, occupied, t)
    decreases n
  {
    if 0 < n {
      var r := Arrival(g, occupied, t, 2);
      var c := t.GetIdxOf(r.1);
      WorldRatsNext(g, occupied, t, n);
      WorldRatsApart(r.0, occupied + {c}, t, n - 1);
      var w := WorldRats(g, occupied, t, n);
      if w.fits {
        ApartCons(ActorState(r.1, r.2, None), WorldRats(r.0, occupied + {c}, t, n - 1).states, occupied, t);
      }
    }
  }

  class SurvivalGame {
    const config: SurvivalGameConfig
    const terrain: Terrain
    const random: Random
    const logic: Logic
    var actors: seq<Actor>
    var frame: int
    var nextId: int
    var lookup: map<int, Actor>
    var newPlayers: seq<Actor>

    /**
     * The game's invariant: the rat logic shares the terrain and tracks
     * exactly the rats, in list order; no actor is listed twice; ids are
     * unique and below `nextId`; `m_lookup` is the occupancy of the actors,
     * so no two actors share a cell; and every actor's cell index lies in the
     * heightmap.
     */
    ghost predicate Valid()
      reads this`actors, this`lookup, this`nextId, this`frame, logic`rats, set a | a in actors
    {
      Playable(terrain) && logic.terrain == terrain && random != logic.random && frame >= 0 &&
      Consistent(actors, StatesOf(actors), lookup, logic.rats, nextId, terrain)
    }

    /**
     * What the invariant gives the clients: no two actors share a cell,
     * `m_lookup` holds exactly the occupied cells, and every actor's cell
     * index lies in the heightmap.
     */
    lemma ValidOccupancy()
      requires Valid()
      ensures OnePerCell(StatesOf(actors), terrain) && lookup.Keys == CellsOf(StatesOf(actors), terrain)
      ensures forall a :: a in actors ==> terrain.InRange(terrain.GetIdxOf(a.pos))
    {
      var states := StatesOf(actors);
      ConsistentIs(actors, states, lookup, logic.rats, nextId, terrain);
      KeyedDistinct(actors, CellSeq(states, terrain), lookup);
      CellSeqFacts(states, terrain);
      forall a | a in actors
        ensures terrain.InRange(terrain.GetIdxOf(a.pos))
      {
        var j :| 0 <= j < |actors| && actors[j] == a;
        assert InMap(states[j], terrain);
      }
    }

    /** `GenerateStartState`: the whole world as the first state change, nobody killed. */
    function GenerateStartState(): (s: GameStartState)
      reads this`actors, this`frame
      ensures s.config == config && s.change.frame == frame && s.change.actors == actors
      ensures s.change.killedActors == [] && s.change.terrainChange == terrain.changeSinceStart
    {
      GameStartState(config, StateChange(frame, actors, [], terrain.changeSinceStart))
    }

    /**
     * A joining client learns every actor exactly once, on cells no two of
     * them share, each with the state it has in the game.
     */
    lemma StartStateListsEveryone()
      requires Valid()
      ensures var c := GenerateStartState().change;
        Distinct(c.actors) && (forall a :: a in c.actors <==> a in actors) &&
        StatesOf(c.actors) == StatesOf(actors) && OnePerCell(StatesOf(c.actors), terrain)
    {
      ConsistentIs(actors, StatesOf(actors), lookup, logic.rats, nextId, terrain);
      ValidOccupancy();
    }

    /**
     * The constructor up to `GenerateWorld`: an empty world on the given
     * heightmap (what `Terrain.Generate` produces), with the game's generator
     * and the rat logic's generator both seeded with `(uint)config.seed`.
     */
    constructor (config: SurvivalGameConfig, heights: seq<int>)
      requires 0 < config.mapSize < TWO31 && |heights| == config.mapSize * config.mapSize
      ensures this.config == config && terrain == WithHeights(NewTerrain(config), heights)
      ensures actors == [] && frame == 0 && nextId == 0 && lookup == map[] && newPlayers == []
      ensures random.State() == Seeded(SeedOf(config.seed)) && logic.random.State() == Seeded(SeedOf(config.seed))
      ensures fresh(random) && fresh(logic) && fresh(logic.random) && logic.rats == []
      ensures Valid()
    {
      this.config := config;
      var t := WithHeights(NewTerrain(config), heights);
      terrain := t;
      actors := [];
      frame := 0;
      random := new Random(SeedOf(config.seed));
      logic := new Logic(t, config.seed);
      nextId := 0;
      lookup := map[];
      newPlayers := [];
    }

    /** `GetFreeSpot`. */
    method GetFreeSpot() returns (pos: Vec3)
      requires Playable(terrain)
      modifies random
      ensures (random.State(), pos) == FreeSpot(old(random.State()), lookup.Keys, terrain)
    {
      ghost var g0 := random.State();
      pos := Vec3(0, 0, 0);
      for j := 0 to FreeSpotAttempts
        invariant FreeSpot(g0, lookup.Keys, terrain) == FreeSpotFrom(random.State(), lookup.Keys, terrain, j, pos)
      {
        DrawFromZero(random.State(), terrain.size);
        var x := random.Range(0, terrain.size);
        DrawFromZero(random.State(), terrain.size);
        var z := random.Range(0, terrain.size);
        pos := Vec3(x, 0, z);
        if terrain.GetIdxOf(pos) in lookup {
          continue;
        }
        IndexRoundTrip(terrain, x, z);
        pos := pos.(y := terrain.GetHeightOf(pos));
        if pos.y > 0 {
          break;
        }
      }
    }

    /** What `SpawnActor` needs of a new actor for the invariant to survive. */
    ghost predicate Fits(a: Actor)
      reads this`actors, this`nextId, a, set b | b in actors
    {
      a !in actors && IdsBelow(actors + [a], nextId) && InMap(a.State(), terrain)
    }

    /**
     * `SpawnActor`: list the actor, hand it to the rat logic, and key it
     * under its cell. `ok` is false where `Dictionary.Add` throws because the
     * cell is taken; the list and the rat logic have then already been updated.
     */
    method SpawnActor(actor: Actor) returns (ok: bool)
      modifies this`actors, this`lookup, logic`rats
      ensures actors == old(actors) + [actor]
      ensures logic.rats == if actor.actorType == Rat then old(logic.rats) + [actor] else old(logic.rats)
      ensures ok <==> terrain.GetIdxOf(actor.pos) !in old(lookup)
      ensures lookup == if ok then old(lookup)[terrain.GetIdxOf(actor.pos) := actor] else old(lookup)
      ensures StatesOf(actors) == old(StatesOf(actors)) + [actor.State()]
      ensures old(Valid()) && old(Fits(actor)) && ok ==> Valid()
    {
      ghost var wasValid := Valid() && Fits(actor);
      ghost var before := actors;
      ghost var states := StatesOf(actors);
      actors := actors + [actor];
      assert StatesOf(before) == states;
      logic.Add(actor);
      assert StatesOf(before) == states;
      StatesOfAppend(before, actor);
      var idx := terrain.GetIdxOf(actor.pos);
      if idx in lookup {
        ok := false;
      } else {
        lookup := lookup[idx := actor];
        ok := true;
        if wasValid {
          ConsistentAdd(before, states, old(lookup), old(logic.rats), nextId, terrain, actor, actor.State(),
                        actors, StatesOf(actors), lookup, logic.rats);
          assert Valid();
        }
      }
    }

    /** The draws of `Arrival`, made on the game's generator. */
    method Roll(subTypes: int) returns (pos: Vec3, dir: int, sub: int)
      requires Playable(terrain) && 0 < subTypes < TWO31
      modifies random
      ensures (random.State(), pos, dir, sub) == Arrival(old(random.State()), lookup.Keys, terrain, subTypes)
    {
      pos := GetFreeSpot();
      DrawFromZero(random.State(), 4);
      dir := random.Range(0, 4);
      DrawFromZero(random.State(), subTypes);
      sub := random.Range(0, subTypes);
    }

    /**
     * A new actor at `pos` with the next id (`nextId++`), handed to
     * `SpawnActor`: the shared body of `JoinGame` and `GenerateWorld`.
     */
    method Place(pos: Vec3, dir: int, sub: int, actorType: ActorType, name: string) returns (a: Actor, ok: bool)
      requires terrain.InRange(terrain.GetIdxOf(pos)) && IsDir(dir)
      modifies this`actors, this`lookup, this`nextId, logic`rats
      ensures fresh(a) && a.id == old(nextId) && a.pos == pos && a.dir == dir && a.subType == sub
      ensures a.actorType == actorType && a.name == name && a.order == None
      ensures ok <==> terrain.GetIdxOf(pos) !in old(lookup)
      ensures nextId == old(nextId) + 1 && actors == old(actors) + [a]
      ensures logic.rats == if actorType == Rat then old(logic.rats) + [a] else old(logic.rats)
      ensures lookup == if ok then old(lookup)[terrain.GetIdxOf(pos) := a] else old(lookup)
      ensures StatesOf(actors) == old(StatesOf(actors)) + [ActorState(pos, dir, None)]
      ensures old(Valid()) && ok ==> Valid()
    {
      ghost var wasValid := Valid();
      ghost var states := StatesOf(actors);
      if wasValid {
        ConsistentIs(actors, states, lookup, logic.rats, nextId, terrain);
        ConsistentGrow(actors, states, lookup, logic.rats, nextId, terrain);
      }
      var newId := nextId;
      nextId := nextId + 1;
      a := new Actor(newId, pos, dir, actorType, sub, name);
      assert StatesOf(actors) == states;
      if wasValid {
        assert Valid();
        IdsAdd(actors, newId, a);
        assert Fits(a);
      }
      ok := SpawnActor(a);
    }

    /**
     * `JoinGame`: a new player placed by `Arrival` with `Range(0, 100000)`
     * sub-types, queued for the next frame's change. `None` stands for the
     * exception `SpawnActor` raises when `GetFreeSpot` gave up on a taken cell.
     */
    method JoinGame(name: string) returns (id: Option<int>)
      requires Valid()
      modifies this`actors, this`lookup, this`nextId, this`newPlayers, random, logic`rats
      ensures |actors| == |old(actors)| + 1 && actors[..|old(actors)|] == old(actors)
      ensures var r := Arrival(old(random.State()), old(lookup.Keys), terrain, 100000);
        var a := actors[|old(actors)|];
        fresh(a) && a.id == old(nextId) && a.pos == r.1 && a.dir == r.2 && a.subType == r.3 &&
        a.actorType == Player && a.name == name && a.order == None && random.State() == r.0 &&
        (id.Some? <==> terrain.GetIdxOf(r.1) !in old(lookup)) &&
        (id.Some? ==> id.value == old(nextId) && Valid() && newPlayers == old(newPlayers) + [a] &&
                      lookup == old(lookup)[terrain.GetIdxOf(a.pos) := a]) &&
        (id.None? ==> newPlayers == old(newPlayers) && lookup == old(lookup))
      ensures nextId == old(nextId) + 1 && logic.rats == old(logic.rats)
    {
      var pos, dir, sub := Roll(100000);
      var a, ok := Place(pos, dir, sub, Player, name);
      assert actors[..|old(actors)|] == old(actors);
      if ok {
        Queue(a);
        id := Some(a.id);
      } else {
        id := None;
      }
    }

    /** `newPlayers.Add`: the player goes out with the next frame's change. */
    method Queue(a: Actor)
      modifies this`newPlayers
      ensures newPlayers == old(newPlayers) + [a]
      ensures old(Valid()) ==> Valid()
    {
      newPlayers := newPlayers + [a];
    }

    /** `KillActor`: the reverse of `SpawnActor` (`List.Remove` and `Dictionary.Remove`). */
    method KillActor(actor: Actor)
      modifies this`actors, this`lookup, logic`rats
      ensures actors == RemoveFirst(old(actors), actor)
      ensures logic.rats == if actor.actorType == Rat then RemoveFirst(old(logic.rats), actor) else old(logic.rats)
      ensures lookup == old(lookup) - {terrain.GetIdxOf(actor.pos)}
      ensures old(Valid()) && actor in old(actors) ==> Valid()
    {
      ghost var wasValid := Valid() && actor in actors;
      ghost var before := actors;
      ghost var states := StatesOf(actors);
      actors := RemoveFirst(actors, actor);
      logic.Remove(actor);
      lookup := lookup - {terrain.GetIdxOf(actor.pos)};
      assert StatesOf(before) == states;
      if wasValid {
        var i := IndexOf(before, actor);
        assert actors == before[..i] + before[i + 1..];
        assert states[i] == actor.State();
        StatesOfSplice(before, i);
        ConsistentRemove(before, states, old(lookup), old(logic.rats), nextId, terrain, i,
                         actors, StatesOf(actors), lookup, logic.rats);
        assert Valid();
      }
    }

    /** One rat of `GenerateWorld`: placed by `Arrival` with `Range(0, 2)` sub-types and no name. */
    method SpawnRat() returns (a: Actor, ok: bool)
      requires Valid()
      modifies this`actors, this`lookup, this`nextId, random, logic`rats
      ensures var r := Arrival(old(random.State()), old(lookup.Keys), terrain, 2);
        fresh(a) && a.id == old(nextId) && a.pos == r.1 && a.dir == r.2 && a.subType == r.3 &&
        a.actorType == Rat && a.name == "" && a.order == None && random.State() == r.0 &&
        (ok <==> terrain.GetIdxOf(r.1) !in old(lookup))
      ensures nextId == old(nextId) + 1 && actors == old(actors) + [a]
      ensures StatesOf(actors) == old(StatesOf(actors)) + [ActorState(a.pos, a.dir, None)]
      ensures ok ==> lookup == old(lookup)[terrain.GetIdxOf(a.pos) := a]
      ensures ok ==> Valid()
    {
      var pos, dir, sub := Roll(2);
      a, ok := Place(pos, dir, sub, Rat, "");
    }

    /** `GeneratingAt` of the current actors, generator and occupancy, in a valid game. */
    ghost predicate Generating(w0: World, actors0: seq<Actor>, states0: seq<ActorState>, id0: int,
                               made: seq<Actor>, placed: seq<ActorState>, subs: seq<int>)
      reads this`actors, this`lookup, this`nextId, this`frame, logic`rats, random, set a | a in actors
    {
      Valid() && |made| <= RatCount &&
      GeneratingAt(w0, actors0, states0, id0, made, placed, subs, actors, StatesOf(actors), nextId,
                   WorldRats(random.State(), lookup.Keys, terrain, RatCount - |made|))
    }

    /** One iteration of `GenerateWorld`'s loop: `SpawnRat`, seen against the arrivals still to come. */
    method SpawnNextRat(ghost w0: World, ghost actors0: seq<Actor>, ghost states0: seq<ActorState>, ghost id0: int,
                        ghost made: seq<Actor>, ghost placed: seq<ActorState>, ghost subs: seq<int>)
      returns (a: Actor, ok: bool)
      requires Generating(w0, actors0, states0, id0, made, placed, subs) && |made| < RatCount
      modifies this`actors, this`lookup, this`nextId, random, logic`rats
      ensures ok ==> Generating(w0, actors0, states0, id0, made + [a], placed + [ActorState(a.pos, a.dir, None)],
                                subs + [a.subType])
      ensures !ok ==> !w0.fits
    {
      ghost var acts, states, id, g, keys := actors, StatesOf(actors), nextId, random.State(), lookup.Keys;
      ghost var n := RatCount - |made|;
      ResumesNext(w0, placed, subs, g, keys, terrain, n);
      a, ok := SpawnRat();
      if ok {
        assert lookup.Keys == keys + {terrain.GetIdxOf(a.pos)};
        GeneratingNext(w0, actors0, states0, id0, made, placed, subs, acts, states, id, WorldRats(g, keys, terrain, n),
                       a, ActorState(a.pos, a.dir, None), WorldRats(random.State(), lookup.Keys, terrain, n - 1));
      }
    }

    /**
     * `GenerateWorld` after `Terrain.Generate`: eight rats placed by
     * `Arrival` with `Range(0, 2)` sub-types and consecutive ids, exactly as
     * `WorldRats` lays them out from the generator and the occupied cells.
     * `ok` is false where `SpawnActor` throws.
     */
    method GenerateWorld() returns (ok: bool)
      requires Valid()
      modifies this`actors, this`lookup, this`nextId, random, logic`rats
      ensures ok ==> Valid()
      ensures ok ==>
        |actors| == |old(actors)| + RatCount && actors[..|old(actors)|] == old(actors) &&
        nextId == old(nextId) + RatCount && NewRats(actors[|old(actors)|..], old(nextId)) &&
        StatesOf(actors)[..|old(actors)|] == old(StatesOf(actors)) && Unordered(StatesOf(actors)[|old(actors)|..])
      ensures var w := WorldRats(old(random.State()), old(lookup.Keys), terrain, RatCount);
        ok == w.fits &&
        (ok ==> random.State() == w.rng && StatesOf(actors)[|old(actors)|..] == w.states &&
                SubTypesOf(actors[|old(actors)|..]) == w.subTypes)
    {
      ghost var w0 := WorldRats(random.State(), lookup.Keys, terrain, RatCount);
      ghost var actors0, states0, id0 := actors, StatesOf(actors), nextId;
      ghost var made: seq<Actor> := [];
      ghost var placed: seq<ActorState> := [];
      ghost var subs: seq<int> := [];
      assert actors == actors0 + made && StatesOf(actors) == states0 + placed;
      for i := 0 to RatCount
        invariant |made| == i && Generating(w0, actors0, states0, id0, made, placed, subs)
      {
        var a;
        a, ok := SpawnNextRat(w0, actors0, states0, id0, made, placed, subs);
        if !ok {
          return;
        }
        made, placed, subs := made + [a], placed + [ActorState(a.pos, a.dir, None)], subs + [a.subType];
      }
      ok := true;
      assert actors[|old(actors)|..] == made;
      assert StatesOf(actors)[|old(actors)|..] == placed;
    }

    /**
     * `m_logic.Update()` inside `Step`: every tracked rat takes its state
     * from the rat pass, and every other actor keeps its own. Requires that
     * no rat looks past the heightmap.
     */
    method RatPass()
      requires Valid()
      requires UpdatePass(logic.random.State(), logic.RatStates(), terrain).Some?
      modifies logic.random, set a | a in actors
      ensures StatesOf(actors) ==
        Merge(actors, old(StatesOf(actors)), UpdatePass(old(logic.random.State()), old(logic.RatStates()), terrain).value.1)
      ensures logic.random.State() == UpdatePass(old(logic.random.State()), old(logic.RatStates()), terrain).value.0
      ensures Valid()
    {
      ghost var states := StatesOf(actors);
      ghost var rs0 := logic.RatStates();
      ghost var g0 := logic.random.State();
      ConsistentIs(actors, states, lookup, logic.rats, nextId, terrain);
      RatsOfDistinct(actors);
      RatsOfIn(actors);
      forall j | 0 <= j < |actors| && actors[j].actorType == Rat
        ensures rs0[RatIdx(actors, j)] == states[j]
      {
        var k := RatIdx(actors, j);
        assert logic.rats[k] == actors[j];
      }
      MergePass(g0, actors, states, rs0, terrain);
      logic.Update();
      ghost var mid := Merge(actors, states, UpdatePass(g0, rs0, terrain).value.1);
      forall j | 0 <= j < |actors|
        ensures StatesOf(actors)[j] == mid[j]
      {
        if actors[j].actorType == Rat {
          var k := RatIdx(actors, j);
          assert logic.rats[k] == actors[j];
          assert logic.RatStates()[k] == actors[j].State();
        } else {
          assert actors[j] !in old(logic.rats);
        }
      }
      assert StatesOf(actors) == mid;
      CellSeqSamePos(mid, states, terrain);
      ConsistentIs(actors, mid, lookup, logic.rats, nextId, terrain);
    }

    /**
     * The body of `Step`'s loop for the actor at position `i`: `Actor.Step`
     * against the occupancy, then, when the actor reported a change and its
     * position differs, the move in `m_lookup` from the old cell to the new
     * one (`Remove`, then `Add`, which cannot throw: the new cell was free).
     */
    method StepActor(i: nat) returns (anyChange: bool)
      requires i < |actors| && Distinct(actors)
      modifies this`lookup, actors[i]
      ensures (actors[i].State(), anyChange) == Tick(old(actors[i].State()), old(lookup.Keys), terrain)
      ensures lookup ==
        if anyChange && actors[i].pos != old(actors[i].pos)
        then (old(lookup) - {terrain.GetIdxOf(old(actors[i].pos))})[terrain.GetIdxOf(actors[i].pos) := actors[i]]
        else old(lookup)
      ensures StatesOf(actors) == old(StatesOf(actors))[i := actors[i].State()]
    {
      ghost var states := StatesOf(actors);
      var actor := actors[i];
      var prevPos := actor.pos;
      TickMovesOnlyToFreeCells(actor.State(), lookup.Keys, terrain);
      anyChange := actor.Step(lookup, terrain);
      if anyChange && prevPos != actor.pos {
        var from, to := terrain.GetIdxOf(prevPos), terrain.GetIdxOf(actor.pos);
        lookup := lookup - {from};
        assert to !in lookup;
        lookup := lookup[to := actor];
      }
      forall j | 0 <= j < |actors|
        ensures StatesOf(actors)[j] == states[i := actor.State()][j]
      {
        if j != i {
          assert actors[j] != actor;
        }
      }
      assert StatesOf(actors) == states[i := actor.State()];
    }

    /**
     * `Step`'s loop over `m_actors`: each actor steps against the current
     * occupancy and, when it moved, is re-keyed at once, so a later actor in
     * the same frame finds its new cell taken. Returns the actors whose
     * `Step` reported a change, in list order.
     */
    method TickAll() returns (changed: seq<Actor>)
      requires Valid()
      modifies this`lookup, set a | a in actors
      ensures var r := TickActors(old(StatesOf(actors)), old(lookup.Keys), terrain, |actors|);
        StatesOf(actors) == r.0 && lookup.Keys == r.2 && changed == Select(actors, r.1)
      ensures Valid()
    {
      ConsistentIs(actors, StatesOf(actors), lookup, logic.rats, nextId, terrain);
      ghost var s0, occ0 := StatesOf(actors), lookup.Keys;
      KeyedAtIs(actors, s0, lookup, terrain);
      changed := TickEach();
      KeyedAtIs(actors, StatesOf(actors), lookup, terrain);
      TickActorsInMap(s0, occ0, terrain, |actors|);
      ConsistentIs(actors, StatesOf(actors), lookup, logic.rats, nextId, terrain);
    }

    /**
     * `Step`: advances the frame, runs the rat logic, ticks every actor in
     * list order against the occupancy, and reports the actors that changed
     * followed by the players that joined since the previous frame, whose
     * queue it then clears. Nobody is killed and the terrain does not change.
     */
    method Step() returns (change: StateChange)
      requires Valid()
      requires UpdatePass(logic.random.State(), logic.RatStates(), terrain).Some?
      modifies this`frame, this`lookup, this`newPlayers, logic.random, set a | a in actors
      ensures frame == old(frame) + 1 && newPlayers == []
      ensures var mid := Merge(actors, old(StatesOf(actors)), UpdatePass(old(logic.random.State()), old(logic.RatStates()), terrain).value.1);
        var r := TickActors(mid, old(lookup.Keys), terrain, |actors|);
        StatesOf(actors) == r.0 && lookup.Keys == r.2 &&
        change == StateChange(frame, Select(actors, r.1) + old(newPlayers), [], [])
      ensures logic.random.State() == UpdatePass(old(logic.random.State()), old(logic.RatStates()), terrain).value.0
      ensures Valid()
    {
      ghost var s0, g0, rs0, keys0 := StatesOf(actors), logic.random.State(), logic.RatStates(), lookup.Keys;
      NextFrame();
      RatPass();
      ghost var mid := StatesOf(actors);
      assert mid == Merge(actors, s0, UpdatePass(g0, rs0, terrain).value.1);
      var changed := TickAll();
      var reported := Flush(changed);
      change := StateChange(frame, reported, [], []);
    }

    /** `++frame`. */
    method NextFrame()
      modifies this`frame
      ensures frame == old(frame) + 1
      ensures old(Valid()) ==> Valid()
    {
      frame := frame + 1;
    }

    /**
     * The end of `Step`: the players that joined since the previous frame
     * follow the actors that changed, and their queue is cleared.
     */
    method Flush(changed: seq<Actor>) returns (reported: seq<Actor>)
      modifies this`newPlayers
      ensures reported == changed + old(newPlayers) && newPlayers == []
      ensures old(Valid()) ==> Valid()
    {
      reported := changed;
      for k := 0 to |newPlayers|
        invariant reported == changed + newPlayers[..k]
      {
        reported := reported + [newPlayers[k]];
      }
      assert newPlayers[..|newPlayers|] == newPlayers;
      newPlayers := [];
    }

    /** The loop of `Step` over every actor, against the reference pass `TickActors`. */
    method TickEach() returns (changed: seq<Actor>)
      requires Distinct(actors) && KeyedAt(actors, StatesOf(actors), lookup, terrain)
      modifies this`lookup, set a | a in actors
      ensures var r := TickActors(old(StatesOf(actors)), old(lookup.Keys), terrain, |actors|);
        StatesOf(actors) == r.0 && lookup.Keys == r.2 && changed == Select(actors, r.1)
      ensures KeyedAt(actors, StatesOf(actors), lookup, terrain)
    {
      ghost var s0, occ0 := StatesOf(actors), lookup.Keys;
      ghost var flags := [];
      changed := [];
      for i := 0 to |actors|
        invariant (StatesOf(actors), flags, lookup.Keys) == TickActors(s0, occ0, terrain, i)
        invariant KeyedAt(actors, StatesOf(actors), lookup, terrain)
        invariant changed == Select(actors, flags)
      {
        var anyChange := TickStep(i, s0, occ0, flags);
        SelectNext(actors, flags, anyChange);
        if anyChange {
          changed := changed + [actors[i]];
        }
        flags := flags + [anyChange];
      }
    }

    /** One iteration of `Step`'s loop, against one more actor of the reference pass `TickActors`. */
    method TickStep(i: nat, ghost s0: seq<ActorState>, ghost occ0: set<int>, ghost flags: seq<bool>) returns (anyChange: bool)
      requires i < |actors| == |s0| && Distinct(actors)
      requires (StatesOf(actors), flags, lookup.Keys) == TickActors(s0, occ0, terrain, i)
      requires KeyedAt(actors, StatesOf(actors), lookup, terrain)
      modifies this`lookup, actors[i]
      ensures (StatesOf(actors), flags + [anyChange], lookup.Keys) == TickActors(s0, occ0, terrain, i + 1)
      ensures KeyedAt(actors, StatesOf(actors), lookup, terrain)
    {
      ghost var ss, before := StatesOf(actors), lookup;
      KeyedAtIs(actors, ss, lookup, terrain);
      assert actors[i].State() == ss[i];
      anyChange := StepActor(i);
      TickLoopStep(actors, s0, occ0, terrain, i, ss, flags, before, lookup);
      KeyedAtIs(actors, StatesOf(actors), lookup, terrain);
    }

    /**
     * `RequestMoveOrder`: the first actor with the id, if any, drops its
     * order and gets the one `BuildMoveOrder` plans toward `idx`; an unknown
     * id changes nothing. The target must lie in the map.
     */
    method RequestMoveOrder(playerId: int, idx: int)
      requires Valid()
      requires var k := FirstWhere(actors, (a: Actor) => a.id == playerId);
        k < |actors| ==> terrain.InRange(idx) && terrain.InRange(terrain.GetIdxOf(actors[k].pos))
      modifies random, set a | a in actors
      ensures var k := FirstWhere(actors, (a: Actor) => a.id == playerId);
        if k < |actors| then
          var (g', o) := Plan(old(random.State()), terrain, old(actors[k].pos), old(actors[k].dir), idx);
          random.State() == g' &&
          StatesOf(actors) == old(StatesOf(actors))[k := ActorState(old(actors[k].pos), old(actors[k].dir), o)]
        else
          random.State() == old(random.State()) && StatesOf(actors) == old(StatesOf(actors))
      ensures Valid()
    {
      var k := FirstWhere(actors, (a: Actor) => a.id == playerId);
      if k < |actors| {
        ghost var states := StatesOf(actors);
        ConsistentIs(actors, states, lookup, logic.rats, nextId, terrain);
        var actor := actors[k];
        assert InMap(states[k], terrain);
        actor.order := None;
        BuildMoveOrder(actor, idx);
        ghost var s' := actor.State();
        PlanInMap(old(random.State()), terrain, states[k].pos, states[k].dir, idx);
        forall j | 0 <= j < |actors|
          ensures StatesOf(actors)[j] == states[k := s'][j]
        {
          if j != k {
            assert actors[j] != actor;
          }
        }
        assert StatesOf(actors) == states[k := s'];
        CellSeqSamePos(states[k := s'], states, terrain);
        assert AllInMap(states[k := s'], terrain);
        ConsistentIs(actors, states[k := s'], lookup, logic.rats, nextId, terrain);
      }
    }

    /**
     * `BuildMoveOrder`: the greedy walk from the actor's cell toward the
     * target, drawing from the game's generator on ties, then one action
     * list for the walk. The order is set only when the walk took a step.
     */
    method BuildMoveOrder(actor: Actor, targetIdx: int)
      requires Playable(terrain) && terrain.InRange(terrain.GetIdxOf(actor.pos)) && terrain.InRange(targetIdx)
      modifies random, actor
      ensures var (g', o) := Plan(old(random.State()), terrain, old(actor.pos), old(actor.dir), targetIdx);
        random.State() == g' && actor.pos == old(actor.pos) && actor.dir == old(actor.dir) &&
        actor.order == (if o.Some? then o else old(actor.order))
    {
      var cidx := terrain.GetIdxOf(actor.pos);
      CellRoundTrip(terrain, cidx);
      CellRoundTrip(terrain, targetIdx);
      var cx, cy := terrain.GetX(cidx), terrain.GetY(cidx);
      var tx, ty := terrain.GetX(targetIdx), terrain.GetY(targetIdx);
      var path := Walk(cx, cy, tx, ty);
      PathShape(old(random.State()), terrain, cx, cy, tx, ty);
      if |path| > 1 {
        var actions := MoveActions(path, actor.dir);
        actor.order := Some(Order(actions));
      }
    }

    /**
     * The while loop of `BuildMoveOrder`: from the cell `(cx, cy)` toward
     * `(tx, ty)`, the cells of the walk, the start cell first, and the
     * generator's draws on ties.
     */
    method Walk(cx: int, cy: int, tx: int, ty: int) returns (path: seq<int>)
      requires Playable(terrain) && terrain.InGrid(cx, cy) && terrain.InGrid(tx, ty)
      modifies random
      ensures var (g', cells) := PathFrom(old(random.State()), terrain, cx, cy, tx, ty);
        random.State() == g' && path == [terrain.GetIdx(cx, cy)] + cells
    {
      ghost var walk := PathFrom(random.State(), terrain, cx, cy, tx, ty);
      ghost var rest := walk;
      var x, y := cx, cy;
      path := [terrain.GetIdx(cx, cy)];
      ghost var cells: seq<int> := [];
      while x != tx || y != ty
        invariant terrain.InGrid(x, y) && path == [terrain.GetIdx(cx, cy)] + cells
        invariant rest == PathFrom(random.State(), terrain, x, y, tx, ty)
        invariant walk.0 == rest.0 && walk.1 == cells + rest.1
        decreases Dist(x, y, tx, ty)
      {
        var idx, taken;
        x, y, idx, taken := WalkStep(x, y, terrain.GetIdx(x, y), tx, ty);
        if !taken {
          break;
        }
        path := path + [idx];
        cells := cells + [idx];
        rest := PathFrom(random.State(), terrain, x, y, tx, ty);
      }
    }

    /**
     * The body of the while loop of `BuildMoveOrder`: one step toward the
     * target, taken when the next cell rises by at most 1 and is not below 0.
     */
    method WalkStep(x: int, y: int, idx: int, tx: int, ty: int) returns (nx: int, ny: int, nidx: int, taken: bool)
      requires Playable(terrain) && terrain.InGrid(x, y) && terrain.InGrid(tx, ty) && idx == terrain.GetIdx(x, y)
      requires x != tx || y != ty
      modifies random
      ensures terrain.InGrid(nx, ny) && nidx == terrain.GetIdx(nx, ny) && Dist(nx, ny, tx, ty) < Dist(x, y, tx, ty)
      ensures var (g', cells) := PathFrom(old(random.State()), terrain, x, y, tx, ty);
        if taken then g' == PathFrom(random.State(), terrain, nx, ny, tx, ty).0 && cells == [nidx] + PathFrom(random.State(), terrain, nx, ny, tx, ty).1
        else g' == random.State() && cells == []
    {
      ghost var g := random.State();
      nx, ny := Toward(x, y, tx, ty);
      PathFromStep(g, terrain, x, y, tx, ty, random.State(), nx, ny);
      var ph := terrain.GetHeight(idx);
      nidx := terrain.GetIdx(nx, ny);
      var ch := terrain.GetHeight(nidx);
      var dh := ch - ph;
      taken := dh <= 1 && ch >= 0;
    }

    /** The axis choice in the while loop of `BuildMoveOrder`, with `Range(0, 2)` on a tie. */
    method Toward(x: int, y: int, tx: int, ty: int) returns (nx: int, ny: int)
      requires x != tx || y != ty
      modifies random
      ensures (random.State(), nx, ny) == NextCell(old(random.State()), x, y, tx, ty)
    {
      nx, ny := x, y;
      var dx, dy := tx - x, ty - y;
      var adx, ady := Abs(dx), Abs(dy);
      if adx > ady {
        nx := x + Sign(dx);
      } else if ady > adx {
        ny := y + Sign(dy);
      } else {
        DrawFromZero(random.State(), 2);
        var coin := random.Range(0, 2);
        if coin == 0 {
          nx := x + Sign(dx);
        } else {
          ny := y + Sign(dy);
        }
      }
    }

    /** The for loop of `BuildMoveOrder`: a Rotate where the heading changes, then a Move, per step of `path`. */
    method MoveActions(path: seq<int>, dir: int) returns (actions: seq<ActorAction>)
      requires Playable(terrain) && AllInRange(terrain, path) && |path| >= 1
      ensures actions == ActionsUpTo(terrain, path, dir, |path|).0
    {
      actions := [];
      var pdir := dir;
      for i := 1 to |path|
        invariant (actions, pdir) == ActionsUpTo(terrain, path, dir, i)
      {
        ActionsStep(terrain, path, dir, i + 1);
        ghost var a0, p0 := actions, pdir;
        var prevX, prevY := terrain.GetX(path[i - 1]), terrain.GetY(path[i - 1]);
        var idx := path[i];
        var newX, newY := terrain.GetX(idx), terrain.GetY(idx);
        var newDir := ToDir(newX - prevX, newY - prevY);
        if newDir != pdir {
          pdir := newDir;
          actions := actions + [ActorAction(Vec3(newDir, 0, 0), 0, 0, Rotate, false)];
        }
        CellRoundTrip(terrain, idx);
        assert newDir == StepDir(terrain, path, i);
        assert Vec3(newX, terrain.GetHeight(terrain.GetIdx(newX, newY)), newY) == CellAt(terrain, idx);
        actions := actions + [ActorAction(Vec3(newX, terrain.GetHeight(terrain.GetIdx(newX, newY)), newY), 0, 0, Move, false)];
        ghost var turn := if newDir != p0 then [ActorAction(Vec3(newDir, 0, 0), 0, 0, Rotate, false)] else [];
        assert actions == a0 + turn + [ActorAction(CellAt(terrain, path[i]), 0, 0, Move, false)];
      }
    }
  }

  /**
   * The whole `SurvivalGame` constructor: the empty world on the given
   * heightmap, then `GenerateWorld`. The rats take ids `0 .. 7`, so the
   * first player to join gets id 8; `ok` is false where `SpawnActor` throws.
   */
  method NewGame(config: SurvivalGameConfig, heights: seq<int>) returns (game: SurvivalGame, ok: bool)
    requires 0 < config.mapSize < TWO31 && |heights| == config.mapSize * config.mapSize
    ensures fresh(game) && game.config == config && game.terrain == WithHeights(NewTerrain(config), heights)
    ensures game.frame == 0 && game.newPlayers == []
    ensures ok ==>
      game.Valid() && |game.actors| == RatCount && game.nextId == RatCount &&
      NewRats(game.actors, 0) && Unordered(StatesOf(game.actors))
    ensures game.logic.random.State() == Seeded(SeedOf(config.seed))
    ensures var w := WorldRats(Seeded(SeedOf(config.seed)), {}, game.terrain, RatCount);
      ok == w.fits &&
      (ok ==> game.random.State() == w.rng && StatesOf(game.actors) == w.states && SubTypesOf(game.actors) == w.subTypes)
  {
    game := new SurvivalGame(config, heights);
    assert game.lookup.Keys == {};
    ok := game.GenerateWorld();
    assert game.actors[0..] == game.actors;
    assert StatesOf(game.actors)[0..] == StatesOf(game.actors);
  }
}
