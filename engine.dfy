/** The game engine at its boundary: the result codes of actions, the room
    objects the core looks at, and the actions it asks for. Which actions
    succeed is decided by the engine; here each result code is an input. */
module Engine {
  import opened Grid
  import opened Mem

  /** Action result codes: `OK`, `ERR_NOT_IN_RANGE`,
      `ERR_NOT_ENOUGH_RESOURCES` (also `ERR_NOT_ENOUGH_ENERGY`, the same
      number), and every other code. */
  datatype Code = Ok | ErrNotInRange | ErrNotEnoughResources | OtherError(value: int)

  /** A code the builder logs as an error after a withdraw. */
  predicate IsUnexpected(c: Code) {
    c != Ok && c != ErrNotInRange && c != ErrNotEnoughResources
  }

  datatype StructureType =
    | StructureExtension
    | StructureSpawn
    | StructureTower
    | StructureContainer
    | StructureRoad
    | StructureOther

  /** A structure as `room.find(FIND_STRUCTURES)` reports it; `energy` and
      `energyCapacity` are meaningful for extensions, spawns and towers. */
  datatype Structure = Structure(id: string, structureType: StructureType, pos: MyPosition, energy: int, energyCapacity: int)

  datatype Source = Source(id: string, pos: MyPosition)

  datatype ConstructionSite = ConstructionSite(id: string, pos: MyPosition)

  datatype BodyPart = Work | Carry | Move

  /** `[WORK, WORK, CARRY, MOVE]`. */
  const SmallBody: seq<BodyPart> := [Work, Work, Carry, Move]

  /** `[WORK, WORK, WORK, WORK, CARRY, CARRY, MOVE, MOVE]`. */
  const LargeBody: seq<BodyPart> := [Work, Work, Work, Work, Carry, Carry, Move, Move]

  /** An engine call the core makes during a tick, in the order made. */
  datatype Intent =
    | Harvest(sourceId: string)
    | MoveTo(target: MyPosition)
    | Transfer(targetId: string)
    | Withdraw(containerId: string, amount: int)
    | Build(siteId: string)
    | UpgradeController
    | ReportError(code: Code)
    | CreateCreep(spawnName: string, body: seq<BodyPart>, name: string, memory: InitialMemory)

  /** The pattern every creep action follows: try the action and, when the
      engine answers `ERR_NOT_IN_RANGE`, move toward the target. */
  function AttemptThenApproach(action: Intent, at: MyPosition, result: Code): (intents: seq<Intent>)
    ensures |intents| > 0 && intents[0] == action
    ensures |intents| == 2 <==> result == ErrNotInRange
    ensures |intents| <= 2 && (|intents| == 2 ==> intents[1] == MoveTo(at))
  {
    [action] + (if result == ErrNotInRange then [MoveTo(at)] else [])
  }

  /** `creep.harvest(sources[0])`, moving toward it when out of range. With
      no source the engine rejects the undefined target and nothing happens. */
  function HarvestFirst(sources: seq<Source>, result: Code): (intents: seq<Intent>)
    ensures sources == [] <==> intents == []
    ensures sources != [] ==> intents == AttemptThenApproach(Harvest(sources[0].id), sources[0].pos, result)
  {
    if sources == [] then [] else AttemptThenApproach(Harvest(sources[0].id), sources[0].pos, result)
  }

  /** `creep.build(targets[0])` when there is a construction site, moving
      toward it when out of range. */
  function BuildFirst(sites: seq<ConstructionSite>, result: Code): (intents: seq<Intent>)
    ensures sites == [] <==> intents == []
    ensures sites != [] ==> intents == AttemptThenApproach(Build(sites[0].id), sites[0].pos, result)
    ensures forall i :: 0 <= i < |intents| ==> intents[i] == Build(sites[0].id) || intents[i] == MoveTo(sites[0].pos)
  {
    if sites == [] then [] else AttemptThenApproach(Build(sites[0].id), sites[0].pos, result)
  }
}
