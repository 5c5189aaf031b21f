# fuzzy-sniffle core, modelled in Dafny

fuzzy-sniffle is a small Rust game prototype. Its core is two discrete-event schedulers and three smaller pieces that go with them. This project models that core and proves properties of it.

- **Entity scheduler** `EntityEventEngine` (`entity_event_engine.dfy`, module `EntityEngine`). It holds a clock, a game state mapping keys to entities, and a min-priority queue of `(key, next_update)` entries.
  - `add_entity` schedules an entity one cooldown after the clock.
  - `update_next` pops the earliest entry and moves the clock to it. It then takes the entity out of the game state, lets it update the rest of the state, puts it back, and re-queues it if it is still alive.
- **Pending-event queue** (`event_queue.dfy`, module `EventQueue`). Both schedulers keep a `BinaryHeap`. The model keeps the heap's contents as a sequence, and `pop` removes an element that is greatest under the element type's order.
- **Reactive state machine** `StateMachine` (`state_machine.dfy`, module `Reactive`). It holds one state value, a clock and a trigger. The trigger turns a state into new delayed one-shot actions, and the queue pops the action with the smallest delay.
- **State-machine example** (`state_machine_example.dfy`). This is the trigger `generate_events` and the machine `main` builds from state 3.
- **Entity registry** `GameState` (`game_state.dfy`, module `Registry`). Entities live under `i32` ids, and the next id is the current entity count.
- **Tile grid** `Map` (`grid_map.dfy`, module `Grid`). It has row-major addressing, wrap-around (`rem_euclid`) access and text rendering. The older copy in src/map.rs is in `legacy_map.dfy`, module `LegacyMap`.
- **Cave clean-up** (`cave_map_gen.dfy`, module `CaveGen`). This is the deterministic post-processing of the cave generator:
  - clamp the end cell;
  - open the 3x3 blocks around the start and end cells;
  - repeat passes that open checkerboard 2x2 windows and lone walls, until a pass changes nothing.

Times, speeds and the state machine's `Rational` clock are modelled as `real`. Each entity's two capabilities, `get_speed` and `update`, are functions given to the engine: `update` gets the entity and the game state, and returns the liveness flag and the game state it leaves behind. The grid is a class whose tile vector is a `seq` that the mutating accessors reassign.

The model follows the code as written where the code's behaviour is surprising:

- `update_next` silently drops an entry whose key is missing from the game state. The step still advances the clock.
- A dead entity is still put back into the game state. Only its queue entry is dropped.
- The cooldown for re-queueing uses the speed read before `update` runs.
- `add_entity` overwrites an existing key without a check.
- `PartialOrd` for the engine's entries reverses the time order, so the heap pops the earliest entry. `Ord::cmp` reverses it a second time, so `Ord` and `PartialOrd` disagree. The heap's sift steps use the `PartialOrd` operators, so the model pops by `PartialOrd` and proves the disagreement as a lemma.
- The state machine adds the popped action's delay to its clock, although every pushed delay already has the clock added. So the clock is not set to the due time, which `Reactive.StateMachine.Step` states and `StateMachineExample.ClockOvershootsDueTime` exhibits.
- The state machine's seed actions keep their delays exactly as the trigger returns them; the initial time is not added.
- `GameState::add_entity` uses the current count as the new id. After a removal, the next add can overwrite a live entity: this happens when the removed id was below the highest one (see `Registry.AddAfterRemovalOverwrites`).

## Model

| member | source | states |
|---|---|---|
| EntityEngine.SpeedToTimeCooldown | src/entity_event_engine.rs:122-124 | the cooldown is positive for every speed above -100, at most 100 for every speed at or above 0, and negative below -100 |
| EntityEngine.CooldownAtRest | src/entity_event_engine.rs:122-124 | speed 0 waits exactly 100 |
| EntityEngine.CooldownDecreasing | src/entity_event_engine.rs:122-124 | above -100 the cooldown strictly decreases as the speed grows |
| EntityEngine.Eq | src/entity_event_engine.rs:112-116 | two entries are equal exactly when `partial_cmp` calls them Equal, that is when their times agree |
| EntityEngine.PartialCmp | src/entity_event_engine.rs:97-101 | `partial_cmp` compares the times with the arguments swapped: the time order reversed |
| EntityEngine.Cmp | src/entity_event_engine.rs:103-109 | `cmp` compares the times in their own order |
| EntityEngine.PartialCmpReversesTime | src/entity_event_engine.rs:97-101 | `partial_cmp` says Greater exactly for the earlier time and Less exactly for the later one |
| EntityEngine.OrdContradictsPartialOrd | src/entity_event_engine.rs:103-109 | `cmp` is `partial_cmp` reversed, so the two differ whenever the times differ |
| EntityEngine.PartialCmpTotal | src/entity_event_engine.rs:97-101 | `partial_cmp` is antisymmetric and transitive on every queue, so a greatest entry exists |
| EntityEngine.PopIsEarliest | src/entity_event_engine.rs:97-101 | an entry is greatest under `partial_cmp` exactly when no entry has an earlier time |
| EntityEngine.AddEntityState | src/entity_event_engine.rs:53-61 | the clock is kept; the key maps to the entity; the old queue is kept as a prefix and one entry for the key is appended |
| EntityEngine.UpdateNextState | src/entity_event_engine.rs:63-86 | the clock becomes the popped entry's time; for a missing key the game state is kept and the queue loses exactly that entry; for a present key the key maps to the same entity afterwards; the other entries stay, in order, and at most one is appended |
| EntityEngine.AddEntityEffect | src/entity_event_engine.rs:53-61 | the clock is unchanged; the key now maps to the entity, replacing any previous one; other keys are untouched; the queue gains exactly one entry, at clock plus cooldown |
| EntityEngine.AddEntityKeepsNoneOverdue | src/entity_event_engine.rs:54-60 | with a speed above -100 the new entry lies strictly after the clock, and no entry is overdue |
| EntityEngine.UpdateNextKeepsNoneOverdue | src/entity_event_engine.rs:63-86 | popping an earliest entry sets the clock to exactly its time, never moves the clock backwards, and leaves no entry overdue when all speeds are above -100 |
| EntityEngine.UpdateNextMissingKey | src/entity_event_engine.rs:71-74 | for a key missing from the game state, the entry is consumed and the clock advances; the game state is unchanged and nothing is re-queued |
| EntityEngine.UpdateNextPresentKey | src/entity_event_engine.rs:71-85 | `update` sees the game state without the entity; the entity is back under its key whatever `update` returns; it is re-queued one cooldown (for the speed read before `update`) after the new clock exactly when `update` returned true |
| EntityEngine.UpdateNextRequeue | src/entity_event_engine.rs:76-85 | the entity is re-queued, at the new clock plus the cooldown for the speed read before `update`, exactly when `update` returned true |
| EntityEngine.UpdateNextQueueLength | src/entity_event_engine.rs:63-86 | a step shortens the queue by one or keeps its length |
| EntityEngine.EntityEventEngine.constructor | src/entity_event_engine.rs:45-51 | the clock is 0, the given game state is kept, and the queue is empty |
| EntityEngine.EntityEventEngine.AddEntity | src/entity_event_engine.rs:53-61 | the new engine state is `AddEntityState` of the old one |
| EntityEngine.PopIndex | src/entity_event_engine.rs:64-67 | on a non-empty queue, `pop` takes an entry that is greatest under `partial_cmp`, that is an earliest one |
| EntityEngine.EntityEventEngine.Reactivate | src/entity_event_engine.rs:71-85 | for a present key, the clock is kept; the entity is taken out, `update` runs on the remaining game state, and the entity is put back under its key; it is re-queued one cooldown from now exactly when `update` returned true |
| EntityEngine.EntityEventEngine.UpdateNext | src/entity_event_engine.rs:63-86 | on an empty queue nothing changes; otherwise the popped entry is an earliest one and the new state is `UpdateNextState` for it |
| EventQueue.Ordering.Reverse | src/state_machine.rs:17 | reversing keeps Equal and swaps Less with Greater |
| EventQueue.Compare | src/entity_event_engine.rs:99 | comparing two times gives Less, Equal or Greater exactly as the first is below, equal to or above the second |
| EventQueue.PeekIndex | src/entity_event_engine.rs:64 | on a non-empty queue with a total order, the position found holds a greatest element and every earlier position holds a strictly smaller one |
| EventQueue.RemoveAt | src/entity_event_engine.rs:64 | popping leaves the other elements, in order, one fewer |
| EventQueue.RemoveAtMultiset | src/entity_event_engine.rs:64 | popping removes exactly one copy of the popped element |
| EventQueue.RemoveAtThenPush | src/entity_event_engine.rs:64-85 | popping one element and pushing another swaps one copy of the first for one copy of the second |
| Reactive.Eq | src/state_machine.rs:9-13 | two actions are equal exactly when their delays are |
| Reactive.PartialCmp | src/state_machine.rs:15-19 | `partial_cmp` is always defined and compares the delays with the arguments swapped |
| Reactive.Cmp | src/state_machine.rs:21-25 | `cmp` compares the delays with the arguments swapped, so the smaller delay is the greater action |
| Reactive.OrdAgreesWithPartialOrd | src/state_machine.rs:15-25 | `partial_cmp` is always `Some(cmp)`, and `cmp` says Greater exactly for the smaller delay |
| Reactive.CmpTotal | src/state_machine.rs:21-25 | `cmp` is antisymmetric and transitive on every queue |
| Reactive.PopIsSoonest | src/state_machine.rs:42-43 | an action is greatest under `cmp` exactly when no pending delay is smaller |
| Reactive.Initial | src/state_machine.rs:81-91 | the configuration `new` builds: the given state and time, with the trigger's actions for that state queued as returned; the constructor's contract states it |
| Reactive.StepAt | src/state_machine.rs:63-72 | one iteration of `run` for a given popped position; `StepEffect` states what it does |
| Reactive.Offset | src/state_machine.rs:68-72 | each pushed action keeps its function, and its delay is raised by the clock |
| Reactive.StepEffect | src/state_machine.rs:63-72 | one iteration applies the popped action to the state, adds its delay to the clock, keeps the other actions in order, and appends the trigger's new actions offset by the new clock; the size becomes old − 1 + the number of new actions |
| Reactive.SilentTriggerShrinks | src/state_machine.rs:63-72 | when the trigger yields nothing for the state the popped action produces, an iteration only removes that action, keeping the others in order |
| Reactive.SilentQueueDrains | src/state_machine.rs:63-72 | when every queued action leads, from any state, to a state the trigger answers with nothing, an iteration only removes the popped action, and the rest still lead to silence |
| Reactive.OneShotSeedIsSilent | src/state_machine.rs:62-74 | models no source lines: a check that the silence hypothesis of `Run`'s contract can be met, by a machine built from a one-action seed |
| Reactive.StepsExtend | src/state_machine.rs:62-73 | a run of `n` iterations followed by popping a soonest action is a run of `n + 1` iterations |
| Reactive.RunSoFarExtend | src/state_machine.rs:62-73 | `run`'s loop invariant survives an iteration: the configuration is reached by the iterations so far, and from a silent queue each iteration consumed one seed action |
| Reactive.StateMachine.constructor | src/state_machine.rs:81-91 | stores the state, trigger and initial time, and seeds the queue with the trigger's actions for the initial state, delays unchanged |
| Reactive.StateMachine.Step | src/state_machine.rs:63-72 | on an empty queue nothing changes; otherwise it pops an action with the smallest delay and the new configuration is `StepAt` for it |
| Reactive.StateMachine.Run | src/state_machine.rs:62-74 | runs at most `fuel` iterations and stops early only on an empty queue; the final configuration is reached from the first by exactly that many iterations, each popping an action with the smallest delay (`Steps`); when every queued action leads to silence and the fuel suffices, it makes exactly as many iterations as there were queued actions and ends with an empty queue |
| StateMachineExample.GenerateEvents | examples/state_machine_example.rs:6-17 | states other than 3, 7, 6 and 27 yield no actions, and no state yields more than two |
| StateMachineExample.GenerateEventsCases | examples/state_machine_example.rs:8-14 | state 3 yields `+4` at 3.0; state 7 yields `-1` at 13.0 and `+20` at 12.0; state 6 yields `+9` at 0.1; state 27 yields `-21` at 4.0 |
| StateMachineExample.GenerateEventsAdds | examples/state_machine_example.rs:6-17 | each action adds a fixed amount to the state it is given |
| StateMachineExample.AddsStep | src/state_machine.rs:63-72 | with the example trigger, an iteration adds the popped amount to the state and leaves pending the other amounts plus the new state's |
| StateMachineExample.ExampleTerminates | examples/state_machine_example.rs:6-28 | from state 3, at any initial time and whatever the pop order, a run applies at most five actions, stops, and ends in state 5, 14 or 35 |
| StateMachineExample.ExampleFirstAction | examples/state_machine_example.rs:8 | from state 3 the only pending action is popped first; it gives state 7 at clock `t0 + 3.0` |
| StateMachineExample.FirstTwoSteps | examples/state_machine_example.rs:8-12 | the first two iterations reach state 27 with `-1` and `-21` pending at delays `t0 + 16` and `2·t0 + 22` |
| StateMachineExample.SoonestStep | src/state_machine.rs:42-72 | an action due strictly before every other is the only one the heap can pop, so the run from the configuration succeeds when the run after popping it does |
| StateMachineExample.ClockOvershootsDueTime | src/state_machine.rs:67-72 | from clock 0 the second action popped is due at 15.0, yet the clock becomes 18.0 |
| StateMachineExample.SoonestRunFromLateStart | examples/state_machine_example.rs:6-17 | from an initial clock above -6, a run ends in state 5 within four actions |
| StateMachineExample.SoonestRunFromEarlyStart | examples/state_machine_example.rs:6-17 | from an initial clock at or below -10, a run ends in state 14 within five actions |
| StateMachineExample.MainRunEndsIn14 | examples/state_machine_example.rs:19-28 | the machine `main` builds (state 3, clock `f32::MIN`) ends in state 14 |
| Registry.CountAsI32 | src/game_state.rs:25 | `len() as i32` is the count itself below 2^31 and agrees with it modulo 2^32 |
| Registry.DenseNextIdIsFree | src/game_state.rs:24-30 | while the ids are exactly `0 .. count - 1`, the next id is free |
| Registry.AddKeepsDenseIds | src/game_state.rs:28-30 | adding to dense ids keeps them dense and grows the count by one |
| Registry.AddEntityCount | src/game_state.rs:28-30 | after adding, the id maps to the entity; the count grows exactly when the id was free, otherwise the old entity is replaced |
| Registry.GameState.constructor | src/game_state.rs:5-8 | the entity map starts empty |
| Registry.GameState.GetEntityById | src/game_state.rs:11-13 | returns the entity under the id, or None, and removes it |
| Registry.GameState.RemoveEntityById | src/game_state.rs:15-16 | returns the entity under the id, or None, and removes only that id |
| Registry.GameState.GetNextEntityId | src/game_state.rs:24-26 | returns the entity count as an `i32` |
| Registry.GameState.AddEntity | src/game_state.rs:28-30 | inserts the entity under the current count, replacing any entity there |
| Registry.AddAfterRemovalOverwrites | src/game_state.rs:15-30 | with ids 0, 1 and 2, removing 0 and then adding replaces the entity under id 2 |
| Registry.AddAfterRemovingHighestKeepsAll | src/game_state.rs:15-30 | with ids 0, 1 and 2, removing 2 and then adding puts the new entity under the freed id 2 and keeps 0 and 1 |
| Grid.TileGlyph | src/maps/tile.rs:9-11 | a wall renders as a full block and floor as a space, and nothing else |
| Grid.RowMajorInRange | src/maps/map.rs:20-25 | a cell inside the grid has an index inside the tile vector |
| Grid.RowMajorInjective | src/maps/map.rs:20-25 | two cells of the same width share an index only if they are the same cell |
| Grid.Wrap | src/maps/map.rs:36-37 | `rem_euclid` lands in `[0, n)` and keeps values already there |
| Grid.WrapPeriodic | src/maps/map.rs:36-37 | `rem_euclid` by `n` is the same for `v` and `v + n` |
| Grid.WrapIndex | src/maps/map.rs:35-39 | a wrapped cell's index lies inside the tile vector and is the row-major index for in-range cells |
| Grid.WrapShift | src/maps/map.rs:36-37 | on a ring of at least two cells, a step either way lands on a different cell |
| Grid.NeighbourIsOther | src/maps/cave_map_gen.rs:23-36 | in a grid at least two cells wide and high, none of a cell's eight wrapped neighbours is the cell itself |
| Grid.RowText | src/maps/map.rs:52-60 | a rendered row is the width's glyphs followed by a newline |
| Grid.GridText | src/maps/map.rs:49-61 | the rendering of `rows` rows has `rows · (width + 1)` characters |
| Grid.GridTextAt | src/maps/map.rs:49-61 | character `x` of line `y` is the glyph of tile `(x, y)`, and position `width` of each line is a newline |
| Grid.Map.constructor | src/maps/map.rs:11-18 | stores the width and height and makes `width · height` tiles, all walls |
| Grid.Map.XyToIdx | src/maps/map.rs:20-25 | the index lies inside the tile vector, which the source asserts |
| Grid.Map.XyToIdxInjective | src/maps/map.rs:20-25 | two in-range cells share an index only if they are the same cell |
| Grid.Map.XyToIdxWraps | src/maps/map.rs:20-25 | there is no check per axis: `x ≥ width` addresses column `x - width` of the next row |
| Grid.Map.GetTile | src/maps/map.rs:26-29 | never None; it returns the tile at the cell's index |
| Grid.Map.SetWall | src/maps/map.rs:30-33 | writing through `get_tile_mut` changes exactly the tile at the cell's index |
| Grid.Map.GetTileModulo | src/maps/map.rs:35-39 | never None; it returns the tile at the wrapped index |
| Grid.Map.GetTileModuloPeriodic | src/maps/map.rs:35-39 | wrapped access repeats every `width` columns and every `height` rows |
| Grid.Map.GetTileModuloInRange | src/maps/map.rs:35-39 | on in-range coordinates wrapped access agrees with `get_tile` |
| Grid.Map.SetWallModulo | src/maps/map.rs:41-45 | writing through `get_tile_modulo_mut` changes exactly the tile at the wrapped index |
| Grid.Map.Render | src/maps/map.rs:47-62 | the text written is `GridText` of the tiles with the tile glyphs |
| Grid.RenderShape | src/maps/map.rs:47-62 | the text has `height` lines of `width` glyphs plus a newline, each glyph is its tile's, and the 'X' fallback never appears |
| CaveGen.NumWallNeighbors | src/maps/cave_map_gen.rs:23-36 | the count of walls among the eight wrapped neighbours is at most 8 |
| CaveGen.WallAt | src/maps/cave_map_gen.rs:27-35 | for an in-range cell, the wrapped index is the row-major one and the result is that tile's wall flag |
| CaveGen.NumWallNeighborsExcludesSelf | src/maps/cave_map_gen.rs:23-36 | in a grid at least two cells wide and high the cell itself is not counted: rewriting it leaves its count unchanged |
| CaveGen.IsPartOfCheckerboard | src/maps/cave_map_gen.rs:48-64 | "\\" exactly when NW and SE are walls and NE and SW floor; "/" exactly when NE and SW are walls and NW and SE floor; "" otherwise |
| CaveGen.Lonely | src/maps/cave_map_gen.rs:232-233 | a lone wall has at most one wall neighbour, and a floor tile is never lone |
| CaveGen.Open | src/maps/cave_map_gen.rs:212-233 | opening a wrapped tile keeps the grid's shape |
| CaveGen.OpenNoNewWalls | src/maps/cave_map_gen.rs:212-233 | opening a tile closes nothing and leaves that tile floor |
| CaveGen.WallCount | src/maps/cave_map_gen.rs:202-238 | the wall count is at most the number of tiles |
| CaveGen.NoNewWallsCount | src/maps/cave_map_gen.rs:202-238 | opening walls never raises the wall count, and a changed map has strictly fewer walls |
| CaveGen.NoNewWallsTrans | src/maps/cave_map_gen.rs:202-238 | opening walls composes across a run of updates |
| CaveGen.ChangedSoFar | src/maps/cave_map_gen.rs:203-237 | across two wall-opening updates the map has changed exactly when one of them changed it, so `recheck = true` on any change is exact |
| CaveGen.CleanCellTiles | src/maps/cave_map_gen.rs:207-235 | one visit of the clean-up keeps the grid's shape |
| CaveGen.CleanCellEffect | src/maps/cave_map_gen.rs:207-235 | a visit only opens walls; it changes the map exactly when the cell starts a checkerboard window or is a wall with fewer than two wall neighbours, and then the wall count drops |
| CaveGen.Clamp | src/maps/cave_map_gen.rs:187-188 | the result lies in `[lo, hi]`, is the value when it is already there, and is the nearer bound otherwise |
| CaveGen.BlockOpenKept | src/maps/cave_map_gen.rs:190-238 | opening walls keeps an open 3x3 block open |
| CaveGen.CleanCell | src/maps/cave_map_gen.rs:207-235 | the new tiles are `CleanCellTiles` of the old, and it reports a change exactly when the tiles changed |
| CaveGen.Fold | src/maps/cave_map_gen.rs:205-206 | a `for` loop over a map: the visits from `i` up to `n` applied in order; `FoldEffect` states what it does |
| CaveGen.FoldEffect | src/maps/cave_map_gen.rs:205-236 | a loop of wall-opening visits only opens walls, and leaves the map unchanged exactly when each visit leaves the original map unchanged |
| CaveGen.ColumnTiles | src/maps/cave_map_gen.rs:206-236 | the tiles after the `for y` loop over one column: each cell visited in turn; `ColumnEffect` states what it does |
| CaveGen.ColumnEffect | src/maps/cave_map_gen.rs:206-236 | the column loop only opens walls, keeps the grid's shape, and leaves the map unchanged exactly when every cell of the column was already settled |
| CaveGen.PassTiles | src/maps/cave_map_gen.rs:205-237 | the tiles after one pass of the `for x` loop: each column in turn; `PassEffect` states what it does |
| CaveGen.PassEffect | src/maps/cave_map_gen.rs:205-237 | a pass only opens walls, keeps the shape, and leaves the map unchanged exactly when every cell was already settled |
| CaveGen.Settle | src/maps/cave_map_gen.rs:203-237 | the tiles the `while recheck` loop ends with: passes until one changes nothing, which terminates because each changing pass lowers the wall count; `SettleEffect` states what it does |
| CaveGen.SettleEffect | src/maps/cave_map_gen.rs:203-237 | the settled map only has walls opened, every cell of it is settled, and it is the input exactly when every input cell was already settled |
| CaveGen.SetFloor | src/maps/cave_map_gen.rs:193-198 | writing `wall = false` through `get_tile_mut` keeps the tile count |
| CaveGen.SetFloorEffect | src/maps/cave_map_gen.rs:193-198 | for an in-range cell the write closes nothing and leaves that cell floor |
| CaveGen.PadColumn | src/maps/cave_map_gen.rs:192-199 | the inner `for y in -1..2` loop for one `x`: both cells of each row opened, start before end |
| CaveGen.PadColumnOpens | src/maps/cave_map_gen.rs:192-199 | the inner loop closes nothing and leaves floor in the remaining rows of column `x` around the start and around the end |
| CaveGen.PadBlocks | src/maps/cave_map_gen.rs:191-200 | the nested padding loops: the inner loop for each `x` in -1..2 |
| CaveGen.PadBlocksOpens | src/maps/cave_map_gen.rs:191-200 | the padding closes nothing and leaves floor in the remaining columns of the 3x3 blocks around the start and the end |
| CaveGen.FloorKept | src/maps/cave_map_gen.rs:191-237 | opening walls keeps every floor cell floor |
| CaveGen.CleanColumn | src/maps/cave_map_gen.rs:206-236 | the new tiles are `ColumnTiles` of the old; only walls are opened; it reports a change exactly when the tiles changed, and a column with no change has every cell settled |
| CaveGen.CleanPass | src/maps/cave_map_gen.rs:204-237 | the new tiles are `PassTiles` of the old; only walls are opened; it reports a change exactly when the tiles changed, and a pass with no change has found every cell settled |
| CaveGen.Recheck | src/maps/cave_map_gen.rs:203-237 | the `while recheck` loop: the new tiles are `Settle` of the old, only walls are opened, and on exit every cell is settled |
| CaveGen.PadColumnCells | src/maps/cave_map_gen.rs:192-199 | the inner padding loop for one `x`: the new tiles are `PadColumn` of the old |
| CaveGen.Pad | src/maps/cave_map_gen.rs:191-200 | the padding loops: the new tiles are `PadBlocks` of the old, only walls are opened, and both 3x3 blocks are floor |
| CaveGen.PadCell | src/maps/cave_map_gen.rs:193-198 | one padding write: the new tiles are `SetFloor` of the old |
| CaveGen.PostProcess | src/maps/cave_map_gen.rs:185-238 | the new tiles are `Settle` of the padded tiles around the start and the clamped end; no floor is closed, the 3x3 blocks around the start and the clamped end are floor, and on exit no wrapped 2x2 window is a checkerboard and every wall has at least two wall neighbours |
| LegacyMap.TileGlyph | src/map.rs:11-16 | a solid tile renders as a full block and an open one as a space |
| LegacyMap.Map.constructor | src/map.rs:25-32 | stores the width and height and makes `width · height` tiles, all solid |
| LegacyMap.Map.XyToIdx | src/map.rs:34-39 | the index lies inside the tile vector, which the source asserts |
| LegacyMap.Map.XyToIdxInjective | src/map.rs:34-39 | two in-range cells share an index only if they are the same cell |
| LegacyMap.Map.GetTile | src/map.rs:40-43 | never None; it returns the tile at the cell's index |
| LegacyMap.Map.SetSolid | src/map.rs:44-47 | writing through `get_tile_mut` changes exactly the tile at the cell's index |
| LegacyMap.Map.Render | src/map.rs:49-63 | the text written is `GridText` of the tiles with the tile glyphs |
| LegacyMap.RenderShape | src/map.rs:49-63 | the text has `height` lines of `width` glyphs plus a newline, and the 'X' fallback never appears |
| LegacyMap.CaveMap.constructor | src/map.rs:74-82 | an all-solid map of the given size, with repulsion distance 10 and coverage 0.3 |

## Left out

- The random walk that carves the cave is left out, as is the `default_move_weight` family (src/maps/cave_map_gen.rs:9-22, 66-181; src/map.rs:84-226). They depend on `thread_rng`, `f32` weights and `rand::WeightedIndex`. The clean-up is modelled on an arbitrary map, with the start cell and the unclamped end cell as parameters. `CaveMap::new` is modelled up to its `gen` call.
- src/main.rs is left out: the window, texture loading, keyboard input and frame loop are UI and I/O. The `println!` calls in `update_next` and the example trigger are left out too.
- src/test_entities.rs is left out. Its entities only print, and they are written against an older `TimedEntity` signature.
- The `EntityHolder` trait is commented out in the source, so `GameState` stands alone.
- Floating point is modelled as `real`: `f64` times and speeds, `f32` coverage, and the example's literal delays such as 0.1, which are taken as exact.
  - The NaN fallback of `Ord::cmp` (src/entity_event_engine.rs:107) cannot arise.
  - A speed of exactly -100 (a division by zero) is excluded by the `Speed` type.
- The `Rational` conversions of the state machine are identities on `real`. The example's `f32::MIN` is taken at its exact value.
- The heap layout and the choice among entries with equal times are not modelled. `pop` may return any greatest entry. The methods pick the first one, which the contracts do not promise.
- `Box<dyn …>` ownership and the lifetimes of boxed closures are not modelled. Actions are pure function values.
- The state machine's asynchronous plans in the comment at src/state_machine.rs:61 are not implemented in the source.
- Reactive.StateMachine.Run: the source loops until the queue is empty and may never stop. The model runs at most `fuel` iterations and says which of the two happened.
- Integer widths: grid sizes and coordinates are `nat` and `int`.
  - The `u32` products `width * height` and `y * width + x` may wrap in the source; the model does not capture that.
  - The `i32` casts of coordinates in the cave helpers are not modelled.
  - `len() as i32` in the registry is modelled with its wrap-around.
- CaveGen.NumWallNeighbors: the contract bounds the count and proves that the cell itself is excluded. It does not restate the count as a sum over the eight offsets, which is the function's body.
- Grid.Map.Render and LegacyMap.Map.Render: the `fmt::Display` implementations return early when the `Formatter` reports an error (`write!(f, …)?`); the model has no failing formatter, and rendering always produces the full text.
