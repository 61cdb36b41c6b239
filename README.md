# Screeps colony bot: the decision core, in Dafny

This project models the per-tick decision logic of a Screeps colony bot
(KarateSnoopy/LetsPlayScreeps). It covers:

- the room manager, which fills a room's memory with mining tasks and
  container positions, decides which creeps to spawn and runs each creep;
- the miner and builder roles;
- the older harvester-based creep manager;
- the main loop's housekeeping;
- the tutorial builder.

The Screeps engine is outside the model. Every engine call the code makes
(`harvest`, `moveTo`, `transfer`, `withdraw`, `build`, `upgradeController`,
`createCreep`) is recorded as an `Engine.Intent` in the order the code makes
it. The result code each call returns is a parameter. Room queries (`find`,
terrain lookups, `Game.getObjectById`, `Game.creeps`) are also parameters:
sequences in `find` order, a wall predicate, and maps from id or name.

Modules:

- `Basics`: an option type, the first-minimum choice that lodash `sortBy`
  makes when it is stable, and decimal number text.
- `Grid`: positions and the Chebyshev range `getRangeTo`.
- `Mem`: the memory layout of mem.ts.
- `Engine`: result codes, room objects, bodies and intents.
- `Delivery`: the extension/spawn/tower filter that the miner and builder
  share.
- `Spawning`: the `spawnCreep` / `_spawnCreep` step both spawn planners
  share.
- `RoomPlanning`: the pure planning of `initRoomMemory` and
  `getOptimalContainerPosition`.
- `RoomManager`: the rest of roomManager.ts.
- `Builder`, `Miner`, `CreepManager`, `MainLoop` and `TutorialBuilder`.

State the source updates in place is kept in classes:

- `RoomMemory`, `CreepMemory` and `GameMemory` hold the memory records.
- `CreepManager.Manager` holds the module-level lists of creepManager.ts.
- `TutorialBuilder.BuilderMemory` holds the tutorial builder's flag.

Each method that changes them is proved against a specification function,
and the properties the code promises are proved about those functions.

## Model

| member | source | states |
|---|---|---|
| Mem.RoleValue | src/mem.ts:3-19 | the enum values are 0..13 in declaration order, and decoding a value gives back its role |
| Mem.RoleValuesConsecutive | src/mem.ts:3-19 | exactly the numbers 0..13 denote a role, and each decodes to the role with that value |
| Mem.RoleToString | src/mem.ts:21-37 | "unknown role" is returned exactly for the four roles without a case; builder and miner map to their names in both directions |
| Mem.RoomMemory.constructor | src/mem.ts:111-115 | a new room record carries the room's name |
| Mem.RoleToStringInjective | src/mem.ts:21-37 | two named roles with the same text are the same role |
| Basics.FirstMinIndex | src/roomManager.ts:302-303 | the index chosen holds a minimum cost, and every earlier index costs strictly more (a stable sort's first element) |
| Basics.ParseNatToString | src/roomManager.ts:130 | the decimal text of the counter in a creep name reads back as the same number |
| Basics.IntToStringInjective | src/roomManager.ts:130 | different counter values give different texts |
| Grid.Range | src/roomManager.ts:264 | `getRangeTo` is the Chebyshev distance: zero only at the same cell, at least each axis difference, and equal to one of them |
| Delivery.DeliveryTargets | src/miner.ts:24-46 | keeps exactly the extensions, spawns and towers below capacity; empty only when no structure qualifies; its head is the first qualifying structure |
| Delivery.TransferToFirstTarget | src/miner.ts:48-54 | a transfer is attempted exactly when some structure qualifies, to the first one, with a move only on `ERR_NOT_IN_RANGE` |
| Delivery.TransferTargetsOnlyDeliveryTargets | src/builder.ts:94-100 | energy is only transferred to a structure that qualifies and comes first among those that qualify |
| Engine.AttemptThenApproach | src/miner.ts:14-20 | the action comes first; a move toward the target follows if and only if the engine answered `ERR_NOT_IN_RANGE` |
| Engine.HarvestFirst | src/miner.ts:9-10 | the first source is harvested; with no source nothing happens |
| Engine.BuildFirst | tutorial/role.builder.js:18-28 | something happens if and only if there is a construction site; the first site is built, with a move toward it exactly on `ERR_NOT_IN_RANGE` |
| RoomPlanning.NeighbourCells | src/roomManager.ts:185-196 | the eight listed offsets are distinct and are exactly the cells at range 1 of the source |
| RoomPlanning.KeptNeighboursSpec | src/roomManager.ts:199-226 | the cells kept after the first j offsets are the in-room non-wall neighbours among them, without repeats |
| RoomPlanning.TaskCellsSpec | src/roomManager.ts:199-226 | a source gets at most 8 task cells: exactly its in-room non-wall neighbours, each once |
| RoomPlanning.SourceTasksSpec | src/roomManager.ts:208-223 | a source's tasks target that source and have no owner; each task cell appears once; every free neighbour gets a task |
| RoomPlanning.RoomTaskIds | src/roomManager.ts:170-222 | task ids run 1, 2, 3, … across all sources in order |
| RoomPlanning.RoomTaskOrigins | src/roomManager.ts:172-226 | at most 8 tasks per source; every task sits on a free neighbour of the source it targets and starts without an owner |
| RoomPlanning.ColumnSites | src/roomManager.ts:262-298 | the column scan keeps exactly the in-room non-wall cells at range 2, in scan order |
| RoomPlanning.ContainerCandidates | src/roomManager.ts:260-300 | the window scan keeps exactly the in-room non-wall cells at range 2 of the source, in scan order |
| RoomPlanning.OptimalContainerPosition | src/roomManager.ts:243-317 | a chosen position carries the source's id and is an in-room non-wall cell at range 2 of the source |
| RoomPlanning.OptimalContainerChoice | src/roomManager.ts:243-317 | there is no result exactly when the source cell is off the room, the room has no spawn, or no cell qualifies; otherwise the choice is a candidate of least cost (range sum to the mining tasks plus range to the first spawn), and every candidate scanned earlier costs strictly more |
| RoomPlanning.RoomContainersSpec | src/roomManager.ts:228-232 | never more containers than sources; none without a spawn; each one targets one of the room's sources and is an in-room non-wall cell at range 2 of it |
| RoomManager.InitRoomMemory | src/roomManager.ts:161-234 | the room memory becomes: the room name, all sources' tasks in order, the source entries, the chosen containers, and 2 desired builders |
| RoomManager.PushSourceTasks | src/roomManager.ts:185-226 | the inner loop appends exactly the source's numbered tasks and returns the last id used |
| RoomManager.ReleaseStaleOwnersSpec | src/roomManager.ts:319-338 | an owner is cleared exactly when the creep is gone or no longer a miner; ids and positions are kept; every remaining owner is a live miner |
| RoomManager.ReleaseStaleOwnersIdempotent | src/roomManager.ts:319-338 | a second cleanup changes nothing |
| RoomManager.CleanupAssignMiners | src/roomManager.ts:319-338 | the mining task list becomes the cleaned list, task by task |
| RoomManager.ContainerIds | src/roomManager.ts:53-54 | the ids listed are exactly those of the room's containers |
| RoomManager.ContainerIdWithLeastBuildersAssigned | src/roomManager.ts:346-377 | there is no result exactly when the room has no container |
| RoomManager.LeastBuildersChoice | src/roomManager.ts:346-377 | the chosen container belongs to the room, no container has fewer builders, and every container listed before it has strictly more |
| RoomManager.SpawnRequests | src/roomManager.ts:70-94 | at most one role per tick; a miner if and only if miners are short of tasks; a builder if and only if every task has a miner, every source has its container, and builders are short |
| RoomManager.AskNextSpawn | src/roomManager.ts:99-110 | while no attempt has succeeded, asking the next spawn extends the calls and the counter; on OK it is the last spawn asked, otherwise no spawn so far succeeded |
| RoomManager.TryToSpawnCreep | src/roomManager.ts:97-111 | the calls are those of the spawns asked up to the first whose attempt returns OK; the counter advances once per call |
| RoomManager.BuildMissingCreeps | src/roomManager.ts:59-95 | the calls and the counter are those for the requested role, from the spawns that are not busy, with the 4-part body |
| RoomManager.PlannedCallsSpec | src/roomManager.ts:59-111 | the counter advances by exactly the number of `createCreep` calls, and by nothing when no role is requested |
| RoomManager.CountRoleSpec | src/roomManager.ts:51-52 | the number of miners (or builders) is at most the number of creeps, zero exactly when no creep has that role, and all of them exactly when every creep has it |
| RoomManager.RolesOf | src/roomManager.ts:51-52 | the roles read are the creeps' memory roles, in order |
| RoomManager.TakeTurns | src/roomManager.ts:25-44 | miners and builders get their turn; any other role is relabelled miner; builders stay builders |
| RoomManager.Run | src/roomManager.ts:15-45 | spawning uses the roles and container count from before the turns; the turns and relabelling are as above |
| Spawning.InactiveSpawnsMembers | src/roomManager.ts:63-68 | the spawns kept are exactly those not spawning |
| Spawning.CreepNameInjective | src/roomManager.ts:130 | in one room, for one role, different counter values give different creep names |
| Spawning.SpawnCreep | src/roomManager.ts:113-159 | with a passed pre-check the counter goes up by one and `createCreep` is called with the name "room - role" plus the old counter and the role memory; otherwise nothing is called and the counter is kept; the status is the pre-check's failure or `createCreep`'s result |
| Spawning.OutcomeSpec | src/roomManager.ts:126-158 | a spawn attempt returns OK exactly when both the pre-check and `createCreep` return OK; otherwise it returns the failing one of the two |
| Spawning.AskSpawn | src/roomManager.ts:99-110 | asking one more spawn returns its outcome and extends the calls and the counter to that spawn |
| Spawning.AcceptingMembers | src/roomManager.ts:126-127 | the spawns that consume a counter value are exactly those whose pre-check passes |
| Spawning.CreateCallsSpec | src/roomManager.ts:113-159 | a pass makes one call per passed pre-check, in order, and the k-th uses counter value base + k |
| Spawning.CreateCallName | src/roomManager.ts:130 | the k-th call of a pass over one room's spawns names its creep with counter value base + k |
| Spawning.CreateCallNamesDistinct | src/roomManager.ts:129-130 | all creep names requested in one pass over one room's spawns are different |
| Spawning.AttemptCountSpec | src/roomManager.ts:99-110 | the spawns asked are those up to and including the first whose attempt returns OK, or all of them when none does |
| Builder.AssignedContainer | src/builder.ts:8-11 | an existing assignment is kept; without one, there is none exactly when the room has no container |
| Builder.NextGathering | src/builder.ts:19-26 | a gathering builder stops only when full with room to carry; a working builder gathers again only when empty |
| Builder.GatheringHysteresis | src/builder.ts:19-26 | a partly filled builder keeps its mode, a full one works, an empty one gathers |
| Builder.PickupIntents | src/builder.ts:49-65 | the withdraw asks for the free capacity; a move exactly on `ERR_NOT_IN_RANGE`; an error report exactly for an unexpected code |
| Builder.PickupEnergy | src/builder.ts:40-66 | a vanished container is forgotten and nothing is withdrawn; otherwise the withdraw is made |
| Builder.UseEnergy | src/builder.ts:68-116 | energy goes to the first structure that needs it; otherwise to the controller, if the room has one |
| Builder.UpgradeOnlyWhenNothingToFill | src/builder.ts:94-115 | the controller is upgraded only when no structure needs energy and the room has a controller |
| Builder.BuildIfCan | src/builder.ts:119-141 | true if and only if there is a site; it then builds the first site, with a move on `ERR_NOT_IN_RANGE` |
| Builder.Run | src/builder.ts:5-38 | without a container nothing happens; otherwise the mode is updated, then energy is picked up or used |
| Miner.Run | src/miner.ts:1-12 | a full miner delivers, any other miner harvests the first active source |
| Miner.RunDecision | src/miner.ts:1-55 | a miner harvests only when not full and only the first source; it transfers only when full and only to the first structure that needs energy; a full miner with nowhere to deliver does nothing |
| CreepManager.HarvestersSpec | src/creepManager.ts:35 | the harvesters are exactly the creeps whose role is "harvester" |
| CreepManager.HarvesterBody | src/creepManager.ts:51-57 | one of the two bodies is always chosen; the 8-part body exactly when there is a harvester and capacity is above 800 |
| CreepManager.HarvesterBodyAffordable | src/creepManager.ts:51-57 | in a room that holds at least 300 energy, the chosen body never costs more than the room can hold |
| CreepManager.Manager.constructor | src/creepManager.ts:6-8 | the module starts with a creep count of 0 and no harvesters |
| CreepManager.Manager.LoadCreeps | src/creepManager.ts:31-36 | the lists become the room's creeps, their count and its harvesters |
| CreepManager.Manager.BuildMissingCreeps | src/creepManager.ts:38-64 | with fewer than two harvesters every idle spawn is asked, and the counter advances once per passed pre-check; otherwise nothing happens |
| CreepManager.SpawnFromEach | src/creepManager.ts:59-62 | every given spawn is asked whatever the earlier ones answered; one call per passed pre-check, in order |
| CreepManager.Dispatch | src/creepManager.ts:20-28 | exactly the harvesters are run, in order |
| CreepManager.Manager.Run | src/creepManager.ts:10-29 | load, spawn as above, then run each harvester in order |
| MainLoop.ResetUuid | src/main.ts:25-28 | the counter is present and at most 1000 afterwards; a counter in 1..1000 is kept; a missing, zero or too large one restarts at 0 |
| MainLoop.ResetUuidIdempotent | src/main.ts:25-28 | normalising twice is the same as normalising once |
| MainLoop.NormalizeUuid | src/main.ts:25-28 | the stored counter becomes its normalised value |
| MainLoop.LiveCreepMemory | src/main.ts:12-19 | the entries kept are exactly those of live creeps, unchanged |
| MainLoop.LiveCreepMemoryIdempotent | src/main.ts:12-19 | a second cleanup removes nothing more |
| MainLoop.ClearStaleCreepMemory | src/main.ts:7-21 | on ticks divisible by 100, creep memory keeps exactly the live creeps' entries; on other ticks it is untouched |
| MainLoop.Tick | src/main.ts:23-39 | the counter is normalised, then creep memory is cleaned up as above |
| TutorialBuilder.NextBuilding | tutorial/role.builder.js:6-16 | a building creep stops only when empty with room to carry; a harvesting creep builds again only when full |
| TutorialBuilder.BuildingHysteresis | tutorial/role.builder.js:6-16 | a partly filled creep keeps its mode, an empty one harvests, a full one builds |
| TutorialBuilder.Run | tutorial/role.builder.js:4-37 | the flag is updated, then the creep builds the first site or harvests the first source |

## Left out

- Logging, `say`, room visuals and the profiler calls are left out. They do not affect any decision.
- `moveTo` results are not modelled. The builder's error log for them (`ERR_TIRED` is excluded) is left out with the rest of the logging.
- A creep's turn inside `RoomManager.Run` and `CreepManager.Manager.Run` is recorded, not performed. `RoomManager.Run` returns a `Turn` per creep, and `Miner.Run` and `Builder.Run` model the turns themselves. The harvester role (src/harvester.ts) is not part of this model, so `CreepManager.Manager.Run` returns the names of the creeps it hands to it.
- `MainLoop.Tick` leaves out the loop over `Game.rooms`. As written, main.ts:35 calls `RoomManager.run(room)` without the room memory that roomManager.ts:15 requires. Likewise roomManager.ts:31 calls `miner.run(room, creep, rm)`, while miner.ts:1 declares `run(creep)`. The model follows the callee's declaration.
- `MainLoop.ResetUuid`: a negative counter is kept, because `!Memory.uuid` is false for it and it is not above 1000; only a missing, zero or over-1000 counter is reset.
- Spawning.SpawnCreep, RoomManager.TryToSpawnCreep, RoomManager.BuildMissingCreeps and CreepManager.Manager.BuildMissingCreeps require the counter to be present. The main loop sets it before any room runs. An absent counter would make `uuid + 1` not-a-number; that path is not modelled.
- `Game.getObjectById` is a map from the ids of existing objects to their positions. Containers are identified by id only.
- With no source, `harvest(undefined)` is taken to be rejected by the engine with a code other than `ERR_NOT_IN_RANGE`. The model then makes no call.
- The tutorial's `main.js` and the logger and config modules are not part of this model.
- Creep memory roles are the `Role` enum. A stored value outside the enum, such as the legacy text "harvester", behaves like any role other than miner or builder. `CreepManager.LegacyCreep` keeps its role as text.
- Numbers are unbounded integers. JavaScript numbers stay exact at the sizes the counter and energy amounts reach, so there is no wrap-around to model.
- Energy amounts are plain integers. `creep.carry.energy` may be absent in the builder (an `Option`), as the code checks.
- Body part costs (work 100, carry 50, move 50) are the game's constants. They are used only to state `CreepManager.HarvesterBodyAffordable`.
