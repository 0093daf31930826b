# Survival game and lobby: a verified model

This project models two parts of a small multiplayer survival game.

**The deterministic simulation.** Every client replays it identically from a seed:
- a multiply-with-carry random generator (`DeterministicRandom`);
- integer cell coordinates and the four headings (`Vec3`);
- the square height-mapped terrain with row-major cell addressing;
- actors that execute queued orders one tick at a time (`Actor.Step`), each action waiting out its start delay, applying its effect once and then waiting out its end delay;
- the idle-rat policy (`Logic`);
- the game object itself (`SurvivalGame`):
  - it spawns eight rats;
  - it places joining players on free cells;
  - it keeps a cell-to-actor occupancy dictionary;
  - it advances a frame by running the rat policy and ticking every actor in list order;
  - it turns a click on a target cell into a greedy walk and then into a list of Rotate and Move actions.

**The lobby service.** It keeps:
- the signed-in users, by connection id and name;
- invitations, keyed by an id drawn from one counter;
- the games formed from accepted invitations.

The invitation and game entities share user objects by reference. A status change made through one is seen through all of them.

The model takes the form of the code. The C# classes whose fields change in place are Dafny classes with `modifies` frames:
- `DeterministicRandom`, `Actor`, `Logic` and `SurvivalGame`;
- `GameUser`, `Invitation`, `Game` and `GameService`.

The pure parts are datatypes and functions: `Vec3`, the terrain, the action and order records, and the rat policy.

Each state-changing method is proved equal to a function on values:
- `Tick` for one actor step;
- `UpdatePass` for the rat pass;
- `TickActors` for a frame's loop;
- `FreeSpot`, `PathFrom` and `ActionsUpTo` for spawning and for move planning.

Lemmas then prove what the game relies on about those functions:
- the exact lifecycle of an action;
- one actor per cell, with the occupancy dictionary holding exactly the occupied cells;
- every actor's cell index stays in the heightmap (the row-major index `z * size + x` is bounded; `x` may wrap into the neighbouring row, as the source's reads do);
- the walk's steps are 4-neighbour steps that climb at most 1 and approach the target;
- a Rotate is added exactly where the heading changes.

`SurvivalGame.Valid` is the game's invariant. Every operation that changes the world preserves it. In the lobby, `GameService.Valid` says that:
- ids are fresh and distinct across invitations and games;
- no user object is signed in twice.

## Model

| member | source | states |
|---|---|---|
| DeterministicRandom.ToInt32 | Assets/Code/Game/Model/SurvivalGame.cs:19-23 | the `(int)` cast of a `uint`: the result is an int32 congruent to the input modulo 2^32, and equals it when it already fits |
| DeterministicRandom.Random.constructor | Assets/Code/Game/Model/SurvivalGame.cs:11-17 | both words take the seed, then one burn-in step |
| DeterministicRandom.Random.GetValue | Assets/Code/Game/Model/SurvivalGame.cs:25-30 | the state advances by both multiply-with-carry recurrences; the value is `(z << 16) + w` wrapped to 32 bits |
| DeterministicRandom.Random.Range | Assets/Code/Game/Model/SurvivalGame.cs:19-23 | one generator step, then the reduction of its value as written |
| DeterministicRandom.Reduce | Assets/Code/Game/Model/SurvivalGame.cs:19-23 | the reduction is an int32; for `min == 0 < max` it lies in `[0, max)` |
| DeterministicRandom.DrawFromZero | Assets/Code/Game/Model/SurvivalGame.cs:19-23 | `Range(0, max)`, the only form the modelled code calls, returns the next output modulo `max`, in `[0, max)` |
| DeterministicRandom.RangeBelowMinimum | Assets/Code/Game/Model/SurvivalGame.cs:22 | with seed 0, `Range(1, 10000)` returns -1, below its minimum |
| DeterministicRandom.TerrainOffsetShifted | Assets/Code/Game/Model/SurvivalGame.cs:208-209 | each `Range(1, 10000)` that `Terrain.Generate` uses for its noise offsets returns 2 less than the intended reduction, a value in `[-1, 9997]` rather than `[1, 9999]` |
| DeterministicRandom.ReduceIntended | Assets/Code/Game/Model/SurvivalGame.cs:22 | the corrected reduction (`+ min`) always lies in `[min, max)` |
| DeterministicRandom.ReduceAgreesFromZero | Assets/Code/Game/Model/SurvivalGame.cs:19-23 | for `min == 0` the reduction as written is the corrected one |
| Lists.FirstWhere | Assets/Code/Game/Model/SurvivalGame.cs:563 | the position of the first element that satisfies the predicate, with none before it, or the end of the list when none does; the same search stands for `Find` and `FirstOrDefault` at `GameService.cs` lines 136 and 158 |
| Lists.RemoveFirstCount | Assets/Code/Game/Model/SurvivalGame.cs:478 | `List.Remove` takes away exactly one occurrence of the element when there is one, and leaves the multiset of the rest unchanged; the same holds for the removals at `SurvivalGame.cs` line 349 and `GameService.cs` lines 139 and 168 |
| Vectors.AheadOfHeading | Assets/Code/Game/Model/SurvivalGame.cs:361 | for a heading `d`, the cell `p + FromDir(d)` (the `+` of lines 70-73) keeps the elevation of `p`, is a 4-neighbour of `p`, and lies in heading `d` from it |
| Vectors.FromDir | Assets/Code/Game/Model/SurvivalGame.cs:47-57 | a heading maps to a flat 4-neighbour offset, which `ToDir` maps back to that heading |
| Vectors.ToDir | Assets/Code/Game/Model/SurvivalGame.cs:58-68 | always a heading in `[0, 4)`; 0 exactly for `z > 0`, 2 exactly for `z < 0` with `x <= 0` |
| Vectors.ToDirOfUnitStep | Assets/Code/Game/Model/SurvivalGame.cs:47-68 | on a 4-neighbour offset, `FromDir` inverts `ToDir` |
| Terrains.CsRem | Assets/Code/Game/Model/SurvivalGame.cs:267-275 | C#'s `/` and `%` satisfy `a == (a / n) * n + a % n` |
| Terrains.NewTerrain | Assets/Code/Game/Model/SurvivalGame.cs:194-201 | the constructor gives `size = mapSize`, two all-zero maps of `size * size` cells and no changes |
| Terrains.WithHeights | Assets/Code/Game/Model/SurvivalGame.cs:203-255 | the generated heights fill both the start snapshot and the live map, keeping the terrain well formed |
| Terrains.IndexIgnoresElevation | Assets/Code/Game/Model/SurvivalGame.cs:262-265 | `GetIdx(Vec3)` does not depend on `y` |
| Terrains.IndexRoundTrip | Assets/Code/Game/Model/SurvivalGame.cs:257-275 | a grid cell's index is in range, and `GetX`/`GetY` recover its coordinates |
| Terrains.CellRoundTrip | Assets/Code/Game/Model/SurvivalGame.cs:257-275 | an in-range index has grid coordinates, and `GetIdx` of them is the index |
| Actors.Actor.constructor | Assets/Code/Game/Model/SurvivalGame.cs:118-126 | a new actor has the given id, cell, heading, type, sub-type and name, and no order |
| Actors.Actor.Step | Assets/Code/Game/Model/SurvivalGame.cs:128-183 | the actor's new state and reported change are exactly `Tick` of its old state against the occupied cells |
| Actors.PendingTick | Assets/Code/Game/Model/SurvivalGame.cs:138-141 | while the head action winds up, a step only decrements its start delay and reports no change |
| Actors.MoveTick | Assets/Code/Game/Model/SurvivalGame.cs:144-162 | a due Move onto an occupied cell drops the whole order and stays put; onto a free cell it moves there; both report a change |
| Actors.OtherActionTick | Assets/Code/Game/Model/SurvivalGame.cs:144-162 | a due Rotate sets the heading to `target.x`; Attack, Grab and Drop leave cell and heading; all report a change |
| Actors.TickMovesOnlyToFreeCells | Assets/Code/Game/Model/SurvivalGame.cs:144-162 | an actor changes cell only by performing a due Move onto its target, and only when that cell was free |
| Actors.TickLifecycle | Assets/Code/Game/Model/SurvivalGame.cs:128-183 | in an unblocked one-action order, each step takes the action's lifecycle one call further |
| Actors.RunIsLifecycle | Assets/Code/Game/Model/SurvivalGame.cs:128-183 | `k` steps of an unblocked one-action order reach lifecycle state `k`; only the call after the start delay reports a change |
| Actors.ActionLifecycle | Assets/Code/Game/Model/SurvivalGame.cs:128-183 | an action with delays `p` and `q` holds its order for exactly `p + q + 1` steps; only step `p + 1` applies the effect and reports a change; no other step moves or turns the actor |
| Actors.StatesOf | Assets/Code/Game/Model/SurvivalGame.cs:408 | one state per actor, in list order |
| RatLogic.Logic.constructor | Assets/Code/Game/Model/SurvivalGame.cs:330-335 | no rats are tracked, the terrain is shared, and a fresh generator is seeded with `(uint)seed` |
| RatLogic.Logic.Add | Assets/Code/Game/Model/SurvivalGame.cs:337-343 | a rat is appended to the tracked rats; any other actor is ignored |
| RatLogic.Logic.Remove | Assets/Code/Game/Model/SurvivalGame.cs:345-351 | the first occurrence of a rat leaves the tracked rats; any other actor is ignored |
| RatLogic.Logic.Consider | Assets/Code/Game/Model/SurvivalGame.cs:357-397 | an idle rat gets the order the policy `Decide` picks, the generator moves on by its draws, and the rat does not move |
| RatLogic.Logic.Visit | Assets/Code/Game/Model/SurvivalGame.cs:355-398 | one iteration of the loop: the visited rat's state and the generator become `Visited` of their old values; the other rats keep theirs |
| RatLogic.Logic.Update | Assets/Code/Game/Model/SurvivalGame.cs:353-401 | the tracked list is unchanged; the rats' new states and the generator are exactly the pure pass `UpdatePass` |
| RatLogic.UpdatePass | Assets/Code/Game/Model/SurvivalGame.cs:353-401 | a pass that does not fail yields one state per rat |
| RatLogic.DecideShape | Assets/Code/Game/Model/SurvivalGame.cs:359-395 | an order handed to an idle rat is one fresh zero-delay action; a Move exactly onto the cell ahead (a 4-neighbour) at its height, at most 1 higher and above 0; otherwise a Rotate to a heading in `[0, 4)` |
| RatLogic.UpdatePassEffect | Assets/Code/Game/Model/SurvivalGame.cs:353-401 | the pass keeps every rat's cell and heading and leaves rats that already have an order untouched |
| RatLogic.DecideFailsOnlyOffMap | Assets/Code/Game/Model/SurvivalGame.cs:359-395 | for a rat with a heading, the policy fails exactly when the first draw is above 20 and the cell ahead is off the heightmap |
| RatLogic.UpdatePassSucceeds | Assets/Code/Game/Model/SurvivalGame.cs:353-401 | the pass succeeds when every idle rat has a heading and its cell ahead lies on the map |
| RatLogic.UpdatePassStep | Assets/Code/Game/Model/SurvivalGame.cs:355-398 | the pass over a list is the visited first rat followed by the pass over the rest, with the generator threaded through |
| GameRules.FreeSpotShape | Assets/Code/Game/Model/SurvivalGame.cs:451-467 | `GetFreeSpot` returns a grid cell; a free cell carries its terrain height, and a spot above 0 is free; it makes between 1 and 100 two-draw attempts |
| GameRules.RatsOf | Assets/Code/Game/Model/SurvivalGame.cs:337-351 | the rats of an actor list, in order: every element is a rat |
| GameRules.RatsOfAppend | Assets/Code/Game/Model/SurvivalGame.cs:337-343 | spawning an actor extends the rats exactly as `Logic.Add` does |
| GameRules.RatsOfRemove | Assets/Code/Game/Model/SurvivalGame.cs:345-351 | killing an actor shrinks the rats exactly as `Logic.Remove` does |
| GameRules.RatsOfDistinct | Assets/Code/Game/Model/SurvivalGame.cs:337-351 | the rats of a duplicate-free actor list are duplicate-free |
| GameRules.TickInMap | Assets/Code/Game/Model/SurvivalGame.cs:128-183 | a step keeps the index of an actor's cell, and of every queued Move's target, in the heightmap, and keeps its heading, and the target heading of every queued Rotate, in `[0, 4)` |
| GameRules.DecideInMap | Assets/Code/Game/Model/SurvivalGame.cs:359-395 | the rat policy gives a rat whose cell index lies in the heightmap only Moves onto cells whose index lies in the heightmap, and Rotates to headings in `[0, 4)` |
| GameRules.UpdatePassInMap | Assets/Code/Game/Model/SurvivalGame.cs:353-401 | the rat pass keeps every rat's cell index in the heightmap and its heading in `[0, 4)` |
| GameRules.MergePass | Assets/Code/Game/Model/SurvivalGame.cs:533 | seen from the actor list, the rat pass keeps every cell and heading and every index in the heightmap, and changes only idle rats |
| GameRules.TickActors | Assets/Code/Game/Model/SurvivalGame.cs:535-550 | the reference loop over the first `n` actors, with the occupancy threaded through: one state per actor, one flag per visited actor, and the actors not yet visited unchanged |
| GameRules.TickActorsNext | Assets/Code/Game/Model/SurvivalGame.cs:535-550 | actor `n` steps against the occupancy the first `n` actors left, and is re-keyed when it moved |
| GameRules.TickActorsOccupancy | Assets/Code/Game/Model/SurvivalGame.cs:535-550 | a frame keeps one actor per cell, and the threaded occupancy is exactly the set of occupied cells |
| GameRules.TickActorsInMap | Assets/Code/Game/Model/SurvivalGame.cs:535-550 | a frame keeps every actor's cell index in the heightmap |
| GameRules.InMapWrapsRow | Assets/Code/Game/Model/SurvivalGame.cs:361-362 | the in-heightmap bound is on the cell index, not the grid: on a 2 by 2 map the cell `(-1, 1)`, left of the grid, has index 1, the last cell of row 0, which is what a rat at `x = 0` facing `-x` reads as the cell ahead |
| GameRules.RekeyOne | Assets/Code/Game/Model/SurvivalGame.cs:542-546 | moving one actor to a free cell keeps one actor per cell and swaps its old cell for the new one in the occupied set |
| GameRules.KeyedAdd | Assets/Code/Game/Model/SurvivalGame.cs:469-474 | `m_lookup.Add` on a free cell keys the new actor there, with every other actor still keyed |
| GameRules.KeyedRemove | Assets/Code/Game/Model/SurvivalGame.cs:476-481 | `m_lookup.Remove` of an actor's cell keys exactly the remaining actors |
| GameRules.KeyedMove | Assets/Code/Game/Model/SurvivalGame.cs:542-546 | `Remove` then `Add` re-keys a moved actor under its new, free cell |
| GameRules.KeyedTick | Assets/Code/Game/Model/SurvivalGame.cs:537-548 | after one actor's step and re-keying, `m_lookup` keys every actor under its current cell |
| GameRules.TickLoopStep | Assets/Code/Game/Model/SurvivalGame.cs:535-550 | one iteration of the loop advances the reference pass by one actor and keeps the dictionary keyed |
| Pathing.NextCell | Assets/Code/Game/Model/SurvivalGame.cs:583-609 | a step of the walk goes to a 4-neighbour one unit closer to the target, stays inside the box between cell and target, and draws from the generator only on a tie |
| Pathing.PathFromStep | Assets/Code/Game/Model/SurvivalGame.cs:583-623 | one unfolding of the walk: the next cell is in the grid, and is taken when it rises at most 1 and is not below 0, otherwise the walk ends |
| Pathing.ReachedIff | Assets/Code/Game/Model/SurvivalGame.cs:583 | a heightmap index is at distance 0 from a grid cell exactly when it is that cell's index |
| Pathing.PathShape | Assets/Code/Game/Model/SurvivalGame.cs:575-623 | the path has at most one step per unit of distance; each step goes to a 4-neighbour one closer, rises at most 1 and lands at height of at least 0; it ends on the target exactly when it has as many steps as the distance |
| Pathing.ActionsPlain | Assets/Code/Game/Model/SurvivalGame.cs:635-665 | the built actions are fresh zero-delay Rotates and Moves |
| Pathing.ActionsMoves | Assets/Code/Game/Model/SurvivalGame.cs:635-665 | there is one Move per step of the path, in order, onto that cell at its terrain height |
| Pathing.ActionsMovesInRange | Assets/Code/Game/Model/SurvivalGame.cs:635-665 | every built Move lands on a cell whose index lies in the heightmap, when every cell of the path does |
| Pathing.ActionsTurns | Assets/Code/Game/Model/SurvivalGame.cs:635-665 | there is a Rotate exactly where a step's heading differs from the previous heading (the actor's own before the first step), and `pdir` ends at the last step's heading |
| Pathing.MovesOfHas | Assets/Code/Game/Model/SurvivalGame.cs:635-665 | every Move's target is among the listed move targets |
| Game.ConsistentAdd | Assets/Code/Game/Model/SurvivalGame.cs:469-474 | spawning a new actor with a fresh id on a free cell whose index lies in the heightmap keeps the lists consistent |
| Game.ConsistentRemove | Assets/Code/Game/Model/SurvivalGame.cs:476-481 | killing a listed actor keeps the lists consistent |
| Game.PlanInMap | Assets/Code/Game/Model/SurvivalGame.cs:571-672 | a planned order has only fresh zero-delay Rotates and Moves, and every Move lands on a cell whose index lies in the heightmap |
| Game.PlanShape | Assets/Code/Game/Model/SurvivalGame.cs:571-672 | planning toward the actor's own cell gives nothing; otherwise there are 1 to `distance` Moves, and the last reaches the target exactly when there are `distance` of them |
| Game.Arrival | Assets/Code/Game/Model/SurvivalGame.cs:431-444 | a new actor's spot has its cell index in the heightmap, with a heading in `[0, 4)` and a sub-type below the bound; a free spot carries its height, and a spot above 0 is free |
| Game.NewGame | Assets/Code/Game/Model/SurvivalGame.cs:418-429 | the full constructor: frame 0, the given terrain, the rat generator freshly seeded; the spawns succeed exactly when `WorldRats` from the seeded generator and no occupied cells fits, and then the world is valid, holds eight order-less rats with ids 0 to 7 whose states and sub-types are `WorldRats`', and the game generator ends where `WorldRats` says |
| Game.WorldRatsInMap | Assets/Code/Game/Model/SurvivalGame.cs:487-502 | every rat of the generated world stands on a cell whose index lies in the heightmap |
| Game.WorldRatsUnordered | Assets/Code/Game/Model/SurvivalGame.cs:487-502 | every rat of the generated world has a heading in `[0, 4)`, no order, and sub-type 0 or 1 |
| Game.WorldRatsApart | Assets/Code/Game/Model/SurvivalGame.cs:487-502 | when every spot was free, the rats stand on cells that were free before, pairwise distinct, on the heightmap and at their terrain height |
| Game.SurvivalGame.constructor | Assets/Code/Game/Model/SurvivalGame.cs:418-428 | an empty, valid world; both generators are seeded with `(uint)config.seed` |
| Game.SurvivalGame.ValidOccupancy | Assets/Code/Game/Model/SurvivalGame.cs:405-416 | in a valid game no two actors share a cell, `m_lookup` holds exactly the occupied cells, and every actor's cell index lies in the heightmap |
| Game.SurvivalGame.GenerateStartState | Assets/Code/Game/Model/SurvivalGame.cs:505-520 | the start state carries the config, the frame, all actors, nobody killed and the terrain changes so far |
| Game.SurvivalGame.StartStateListsEveryone | Assets/Code/Game/Model/SurvivalGame.cs:505-520 | a joining client sees every actor exactly once, actors and states unchanged, one per cell |
| Game.SurvivalGame.GetFreeSpot | Assets/Code/Game/Model/SurvivalGame.cs:451-467 | the loop returns the spot and the generator `FreeSpot` gives |
| Game.SurvivalGame.SpawnActor | Assets/Code/Game/Model/SurvivalGame.cs:469-474 | the actor is listed and handed to the rat logic; it is keyed under its cell exactly when the cell was free (otherwise `Dictionary.Add` throws); a valid game stays valid |
| Game.SurvivalGame.Roll | Assets/Code/Game/Model/SurvivalGame.cs:433-441 | the generator draws of a new actor are exactly `Arrival` |
| Game.SurvivalGame.Place | Assets/Code/Game/Model/SurvivalGame.cs:433-446 | a fresh actor gets the next id and is spawned; validity is kept when the cell was free |
| Game.SurvivalGame.JoinGame | Assets/Code/Game/Model/SurvivalGame.cs:431-449 | a new player with the next id, placed by `Arrival` with `Range(0, 100000)` sub-types; on success the game stays valid and the player is queued for the next frame; otherwise it reports the failure |
| Game.SurvivalGame.KillActor | Assets/Code/Game/Model/SurvivalGame.cs:476-481 | the actor leaves the list, the rat logic and its cell in `m_lookup`; a valid game stays valid |
| Game.SurvivalGame.SpawnRat | Assets/Code/Game/Model/SurvivalGame.cs:490-501 | a new nameless rat with the next id, placed by `Arrival` with `Range(0, 2)` sub-types |
| Game.SurvivalGame.GenerateWorld | Assets/Code/Game/Model/SurvivalGame.cs:483-503 | no spawn fails exactly when `WorldRats` from the generator and the occupied cells fits; then eight new order-less rats with consecutive ids follow the existing actors, their states and sub-types and the generator afterwards are `WorldRats`', and the game stays valid |
| Game.SurvivalGame.RatPass | Assets/Code/Game/Model/SurvivalGame.cs:533 | every rat takes its state from the rat pass, every other actor keeps its own, the rat generator ends where the pass leaves it, and the game stays valid |
| Game.SurvivalGame.StepActor | Assets/Code/Game/Model/SurvivalGame.cs:537-548 | one actor's `Step` against the occupancy and, when it moved, its re-keying from old cell to new |
| Game.SurvivalGame.TickAll | Assets/Code/Game/Model/SurvivalGame.cs:535-550 | the loop's states, occupancy and changed actors are exactly the reference pass's, and the game stays valid |
| Game.SurvivalGame.TickEach | Assets/Code/Game/Model/SurvivalGame.cs:535-550 | the loop over every actor against the reference pass `TickActors` |
| Game.SurvivalGame.TickStep | Assets/Code/Game/Model/SurvivalGame.cs:537-549 | one iteration advances the reference pass by one actor |
| Game.SurvivalGame.Step | Assets/Code/Game/Model/SurvivalGame.cs:522-559 | the frame advances by one; the rat pass and then the actor loop give the new states and occupancy; the change lists the changed actors then the players queued since last frame, nobody killed and no terrain change; the rat generator ends where the rat pass leaves it; the queue empties and the game stays valid |
| Game.SurvivalGame.RequestMoveOrder | Assets/Code/Game/Model/SurvivalGame.cs:561-569 | the first actor with the id drops its order and gets the planned one, keeping its cell and heading; an unknown id changes nothing; the game stays valid |
| Game.SurvivalGame.BuildMoveOrder | Assets/Code/Game/Model/SurvivalGame.cs:571-672 | the generator and the order become those `Plan` gives; the order is left alone when the walk takes no step; cell and heading are untouched |
| Game.SurvivalGame.Walk | Assets/Code/Game/Model/SurvivalGame.cs:575-623 | the while loop's path is the start cell followed by `PathFrom`, with the generator as `PathFrom` leaves it |
| Game.SurvivalGame.WalkStep | Assets/Code/Game/Model/SurvivalGame.cs:585-622 | one iteration: the next cell is in the grid and closer, and taken exactly when `PathFrom` continues through it |
| Game.SurvivalGame.Toward | Assets/Code/Game/Model/SurvivalGame.cs:585-609 | the axis choice, with `Range(0, 2)` on a tie, is exactly `NextCell` |
| Game.SurvivalGame.MoveActions | Assets/Code/Game/Model/SurvivalGame.cs:625-666 | the for loop's actions are exactly `ActionsUpTo` over the whole path |
| Lobby.GameUser.constructor | SignalRServer/SignalRServer/GameService.cs:34-39 | a signed-in user has the given name and connection id and is not yet invited |
| Lobby.StopAtConnection | SignalRServer/SignalRServer/IGameService.cs:73 | the search stops at the first user with the connection id or at the first `null`; every user before is non-null with another id |
| Lobby.FindConnection | SignalRServer/SignalRServer/IGameService.cs:73 | `null` exactly when no user has the connection id; otherwise a listed user with that id |
| Lobby.StopAtUnjoined | SignalRServer/SignalRServer/IGameService.cs:60-66 | the loop stops at the first user who has not joined or is `null`; everyone before has joined |
| Lobby.Invitation.constructor | SignalRServer/SignalRServer/IGameService.cs:28-36 | id and inviter as given; the invited users copied in order |
| Lobby.Invitation.AllUsers | SignalRServer/SignalRServer/IGameService.cs:41-51 | the inviter first, then each invited user in order |
| Lobby.Invitation.AllUsersMembers | SignalRServer/SignalRServer/IGameService.cs:41-51 | a user is in the invitation exactly when it is the inviter or invited |
| Lobby.Invitation.AllInvitedUsersHaveJoined | SignalRServer/SignalRServer/IGameService.cs:53-69 | true exactly when someone is invited and every invited user has joined |
| Lobby.Invitation.Accept | SignalRServer/SignalRServer/IGameService.cs:71-78 | the first invited user with the connection id joins; the list is unchanged |
| Lobby.Invitation.Decline | SignalRServer/SignalRServer/IGameService.cs:80-93 | the first invited user with the connection id leaves the list, the rest keeping their order, and is not invited any more; an unknown id changes nothing |
| Lobby.Game.constructor | SignalRServer/SignalRServer/IGameService.cs:98-105 | the id as given; the users copied in order |
| LobbyService.Decimal | SignalRServer/SignalRServer/GameService.cs:51 | `int.ToString()` of a counter value: at least one decimal digit, no leading zero |
| LobbyService.ParseDecimal | SignalRServer/SignalRServer/GameService.cs:51 | reading a rendered id back gives the counter value |
| LobbyService.DecimalInjective | SignalRServer/SignalRServer/GameService.cs:51 | distinct counter values render as distinct ids |
| LobbyService.UsersByIds | SignalRServer/SignalRServer/GameService.cs:143-149 | one entry per id: the first user signed in with it, or `null` |
| LobbyService.GamesOf | SignalRServer/SignalRServer/GameService.cs:115-119 | a game is listed exactly when it holds the user |
| LobbyService.AddGame | SignalRServer/SignalRServer/GameService.cs:121-132 | a game under the next id keeps the game ids fresh and distinct and apart from the invitation ids |
| LobbyService.AddInvitation | SignalRServer/SignalRServer/GameService.cs:49-72 | an invitation under the next id is not stored yet, and its id is also no game's |
| LobbyService.RemoveGameAt | SignalRServer/SignalRServer/GameService.cs:134-141 | dropping the game at `k` leaves no game with its id, and the others keep theirs |
| LobbyService.GameService.constructor | SignalRServer/SignalRServer/GameService.cs:13-20 | no users, games or invitations; the counter at 0; valid |
| LobbyService.GameService.GetUserById | SignalRServer/SignalRServer/GameService.cs:151-154 | `null` exactly when no user has the connection id; otherwise the first user with it |
| LobbyService.GameService.GetUserByName | SignalRServer/SignalRServer/GameService.cs:156-159 | `null` exactly when no user has the name; otherwise the first user with it |
| LobbyService.GameService.GetUsersByIds | SignalRServer/SignalRServer/GameService.cs:143-149 | one `GetUserById` per id, in order |
| LobbyService.GameService.SignIn | SignalRServer/SignalRServer/GameService.cs:32-47 | a fresh, not-yet-invited user is appended; a connection id already signed in keeps resolving to the earlier user; valid |
| LobbyService.GameService.SignOut | SignalRServer/SignalRServer/GameService.cs:161-171 | the first user with the connection id leaves the list, the others keeping their order, and is no longer signed in; an unknown id is a no-op; valid |
| LobbyService.GameService.GetId | SignalRServer/SignalRServer/GameService.cs:173-181 | the counter's old value, then the counter moves on by one |
| LobbyService.GameService.GetInvitation | SignalRServer/SignalRServer/GameService.cs:82-88 | `null` exactly when no invitation has the id; otherwise the one stored under it, carrying that id |
| LobbyService.GameService.GetInvitationsForUser | SignalRServer/SignalRServer/GameService.cs:95-103 | an invitation is listed exactly when it is stored and invites the user the id resolves to |
| LobbyService.GameService.GetMyInvitations | SignalRServer/SignalRServer/GameService.cs:105-113 | an invitation is listed exactly when it is stored and was sent by the user the id resolves to |
| LobbyService.GameService.GetMyGames | SignalRServer/SignalRServer/GameService.cs:115-119 | a game is listed exactly when it holds the user the id resolves to |
| LobbyService.GameService.CreateInvitation | SignalRServer/SignalRServer/GameService.cs:49-72 | a new invitation under a fresh id holds the resolved users and is stored and listed for its inviter and every invited id. The invited users are marked Invited and the inviter Joined; everyone else is unchanged. An inviter who is not signed in is reported as `thrown`. The service stays valid |
| LobbyService.GameService.MarkInvited | SignalRServer/SignalRServer/GameService.cs:57-65 | every user an id resolves to is marked Invited; nobody else changes |
| LobbyService.GameService.RemoveInvitation | SignalRServer/SignalRServer/GameService.cs:74-80 | true exactly when the id was stored; afterwards it is not, the removed invitation is in nobody's lists, and nothing else changes |
| LobbyService.GameService.CreateGame | SignalRServer/SignalRServer/GameService.cs:121-132 | a new game under a fresh id with the invitation's inviter and invited users is appended, and everyone in it finds it among their games; valid |
| LobbyService.GameService.RemoveGame | SignalRServer/SignalRServer/GameService.cs:134-141 | the first game with the id leaves the list, the others keeping their order, and no game with that id remains; an unknown id answers false and changes nothing; valid |

## Left out

- `Terrain.Generate`. The heightmap is an input: `WithHeights` stores it as both snapshots, and the constructors take it as `heights`.
- `SignalRServer/SurvivalGame.cs`, `Program.cs`, the Unity views, camera and audio, and serialization are not part of this model.
- The locks in `GameService` and `Invitation`. The model is single-threaded, so concurrent interleavings are not captured.
- The `Users` and `Games` getters. They return copies of the lists; in the model the `users` and `games` fields are values, so no separate member is needed.
- `AllUsersHaveDeclined` (`GameService.cs:90-93`). It is a stub that always answers false.
- The `Vec3` `==` and `!=` operators. They are the datatype's own equality.
- Game.SurvivalGame.JoinGame: `nextId`, `frame` and the lobby counter are unbounded. The model does not capture int32 overflow after 2^31 ids or frames.
- Game.SurvivalGame.Step: it requires that the rat pass not fail. The game invariant keeps every heading in `[0, 4)`, so the pass fails only when an idle rat's cell ahead lies off the heightmap (`DecideFailsOnlyOffMap`, `UpdatePassSucceeds`). In the source that read throws out of `Logic.Update`; the model does not describe the state after that exception.
- Game.SurvivalGame.RatPass: it requires that the rat pass not fail, as `Step` does. In a valid game this excludes only an idle rat whose cell ahead lies off the heightmap (`DecideFailsOnlyOffMap`, `UpdatePassSucceeds`); the source throws there, and the model does not describe the state after that exception.
- Game.SurvivalGame.RequestMoveOrder: it requires the target index, and the actor's own cell, to lie in the map, so off-map targets are excluded. For them the source throws when the walk reaches an off-map index, and returns normally when the terrain stops the walk first.
- Game.SurvivalGame.BuildMoveOrder: it requires the same in-map bounds as `RequestMoveOrder`, so off-map targets are excluded. For them the source throws when the walk reaches an off-map index, and returns normally when the terrain stops the walk first.
- RatLogic.Logic.Update: it requires the pass not to fail. The failing branch is `Decide`'s `OutOfRange`; for rats with headings in `[0, 4)`, which the game invariant guarantees, that is exactly the read off the heightmap.
- Game.SurvivalGame.SpawnActor: when the cell is taken, `Dictionary.Add` throws after the list and the rat logic were updated. The model returns `ok == false` with that partial state and does not promise the invariant after it.
- Game.SurvivalGame.GenerateWorld: on a spawn failure it stops there, with `ok == false`, and does not promise the invariant.
- Game.NewGame: the C# constructor is split into `SurvivalGame.constructor` and `GenerateWorld`; `NewGame` composes the two.
- Game.SurvivalGame.constructor: it requires `0 < mapSize < 2^31`, and so does `Game.NewGame`. With `mapSize == 0` the source throws in `GetFreeSpot`, whose `Range(0, 0)` divides by zero (`SurvivalGame.cs:22`). For `mapSize > 46340` the source's int32 `size * size` overflows; the model's unbounded product does not capture that.
- The rats take ids 0 to 7 before anyone joins, so the first player gets id 8, not 0. The model follows the code.
- `RatLogic.Logic.constructor`: the `lookup` parameter is unused by `Logic`, so it is not modelled.
- The temporaries `px`, `py` and `pidx` in `BuildMoveOrder` are never read, so they are not modelled.
- `GenerateStartState` hands out the live actor list. The model returns the same sequence of actor references, so a client can see later updates to it.
- Lobby.GameUser.constructor: `Name` and `ConnectionId` have public setters, but nothing in the core writes them after sign-in, so they are `const`.
- Lobby.FindConnection: `FirstOrDefault` dereferences a `null` left in an invitation's list by an unknown connection id. The model requires that no `null` comes before the match, so it does not cover that exception.
- Lobby.Invitation.Accept: it requires `ConnectionSearchSafe`, as `FindConnection` does, so a `null` before the matching user, where the source's `FirstOrDefault` throws, is not covered.
- Lobby.Invitation.Decline: it requires `ConnectionSearchSafe` for the same reason, so a `null` before the matching user, where the source throws, is not covered.
- Lobby.Invitation.AllInvitedUsersHaveJoined: it requires that the loop meets no `null` before its first unjoined user. The source would throw there.
- LobbyService.GameService.GetInvitationsForUser: `Dictionary.Values` has no specified order, so results are sets, not lists.
- LobbyService.GameService.GetMyInvitations: the same applies; results are sets.
- LobbyService.GameService.CreateInvitation: an inviter who is not signed in throws. The model reports `thrown` and leaves the state reached before the throw: the invitation is stored and the invited users are marked.

## Findings

| source | as written | input that shows it | evidently intended | confidence | as-written member | corrected member |
|---|---|---|---|---|---|---|
| Assets/Code/Game/Model/SurvivalGame.cs:22 | `Range` returns `(int)(v % (uint)(max - min)) - min` | seed 0: the generator stays at the all-zero state, so `Range(1, 10000)` returns -1 | `+ min`, giving a value in `[min, max)`. Every call in the modelled code uses `min == 0`, where both forms agree (`ReduceAgreesFromZero`). `Terrain.Generate`, which is not modelled, calls `Range(1, 10000)` twice (`SurvivalGame.cs:208-209`), so its noise offsets `pseed2` and `pseed3` are 2 too low (`TerrainOffsetShifted`) | not executed | DeterministicRandom.RangeBelowMinimum | DeterministicRandom.ReduceIntended |
